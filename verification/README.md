# frp-rs in Dafny

A model of the stateful and bit-level cores of frp-rs, and proofs about it. `dafny verify
dfyconfig.toml` checks the whole project.

- **The cipher stream** (`Cfb`, `StreamMode`, `LittleEndian`, `CipherWriter`, `CipherSession`,
  `CipherLine`, `CipherReader`, `CipherObjects`). The block-wise in-place cipher is proved against CFB-128 as
  section 6.3 of NIST SP 800-38A defines it, byte by byte, registers included, for any chunking.
  The resumable writer and the IV-assembling reader are state machines driven by an inner stream
  that may take or give any number of bytes, be not ready, or fail. AES is a parameter, any
  function on 16-byte blocks; an inner stream is the list of answers it is going to give. The
  main results are about every run: what is on the wire, what the caller was credited, when a
  flush is safe, that no call fails unless the inner stream does, and what the far side reads.
  The writer is also proved to be, call by call, a simple line with one run of bytes waiting.
- **CRC-32C** (`Linear`, `Crc32c`). The definition shifts one message bit at a time (section 12.1
  of RFC 3720). The table builders, slicing-by-8, its cutoff and its tail are proved equal to it
  for every input, and any change confined to 32 consecutive bits is detected, masked or not.
- **The XTCP visitor's tunnel slot** (`Tunnel`, `TunnelSlot`, `TunnelSignals`, `TunnelCalls`). The
  re-punch worker, the keepalive worker's first send and any number of `get_tunnel_conn` calls are
  interleaved one atomic step at a time, in any order, with program counters; cancellation, failing
  punches and any `open_stream` error may happen anywhere. The results hold in every reachable
  state, and say both what never happens and what does.
- **The shared token bucket** (`Bandwidth`), over real numbers and a clock that does not go back.
- **The virtual-net framer** (`Framer`), without compression.
- **Base64** (`Grouping`, `Base64`), **the health monitor** (`Health`), **the file store**
  (`Store`, and with reloads on other threads `StoreInterleaving`), **the reload diff**
  (`Snapshots`, `Reload`) and **the reconnect backoff** (`Backoff`).

Clocks, randomness, probe results, delivery failures, save failures, map iteration orders and the
secret hash are parameters or arbitrary choices.

Where the code and its comments say different things, the model follows the code:

- `frp-core/src/cipher_stream.rs:568-596`: a flush that drains a parked later write keeps no claim
  for it, unlike the first write. `FlushExact` says exactly when a flush keeps the books;
  `DuplicatePayload` and `DuplicateRun` show the payload going out twice otherwise.
- `frp-core/src/cipher_stream.rs:352-365`: `write_encrypted` goes straight to the inner writer even
  while a buffer is parked, and then breaks the stream. `WriteEncryptedExact` and `OvertakeExact`
  say exactly when it does not, `OvertakeRun` shows it, and `PoliteIsOrderly` gives a rule in terms
  of what the caller sees.
- `frp-core/src/cipher_stream.rs:465-523`: an empty write that finds the inner writer not ready is
  parked, and the next answer, of zero bytes, is taken for a failure: `EmptyWriteFails`.
- `frp-client/src/visitor.rs:604-607` says that the keepalive worker's first send survives in the
  one-place buffer. It does not if the first drain comes after it: `FirstSendNeedsDrain`,
  `FirstSendLost`, and `SignalFate` for every signal.
- `frp-client/src/visitor.rs:338-339` says the old session is closed first; the code swaps the new
  one in and then closes the old one.
- `frp-core/src/bandwidth.rs:112-114` bounds the debt by the largest single reservation.
  `DebtBeatsLargest` shows it exceeded, `DebtIsAsleep` gives the bound that holds, and
  `DebtWithinLargest` and `DebtWithinLargestRun` say exactly when the comment's bound holds.
- `frp-core/src/base64.rs:23-24` calls padding in a non-terminal position an error; a padded group
  before the last is accepted (`InteriorPadding`).
- `frp-client/src/store.rs:88-96`: a reload reads the file before it takes the lock, so an operation
  in between is forgotten in memory and, after one more operation, on disk: `SyncExact`,
  `SyncUnlessOvertaken`, `ForgottenInMemory`, `LostOnDisk`.
- `frp-client/src/reload.rs:221-227` wants snapshots to tell configs apart. They do exactly when no
  value holds a bar followed by the next key, or its own, and an equals sign: `SnapshotShared`,
  `MarkerCollides`.
- `frp-client/src/reload.rs:442-458` returns early without looking at edited visitors:
  `VisitorsExact`, `EditMissed`.
- `frp-client/src/backoff.rs:46` gives the slow phase a jitter of 0.5 to 1.5; the code uses 0.9 to
  1.1.

## Model

| member | source | states |
|---|---|---|
| `Cfb.BlockEquation` | frp-core/src/cipher_stream.rs:92-128 | the byte-wise definition used as reference satisfies the block equations of CFB-128: ciphertext block j is plaintext block j XOR the encryption of the block before it |
| `LittleEndian.WideXor` | frp-core/src/cipher_stream.rs:105-111 | XORing two blocks as little-endian 128-bit words is XORing their sixteen bytes |
| `Cfb.XorWords` | frp-core/src/cipher_stream.rs:105-111 | the fast path's result is the bytewise XOR of block and keystream |
| `Cfb.CfbState.constructor` | frp-core/src/cipher_stream.rs:68-81 | a new cipher is at the start of the stream with the registers the IV implies |
| `Cfb.CfbState.Refill` | frp-core/src/cipher_stream.rs:85-90 | puts the keystream for the next byte in place |
| `Cfb.CfbState.XorBlock` | frp-core/src/cipher_stream.rs:103-115 | the whole-block path extends plaintext and ciphertext by matching blocks and leaves the exact registers |
| `Cfb.CfbState.XorPart` | frp-core/src/cipher_stream.rs:117-126 | the bytewise path does the same for part of a block |
| `Cfb.CfbState.CryptNext` | frp-core/src/cipher_stream.rs:97-126 | one round of the loop, refill included, advances the stream and touches no other byte of the buffer |
| `Cfb.CfbState.CryptInPlace` | frp-core/src/cipher_stream.rs:94-127 | the loop turns the whole buffer into the continuation of the stream, for any position it starts at |
| `Cfb.CfbState.EncryptInPlace` | frp-core/src/cipher_stream.rs:93-128 | encryption in place is the byte-wise CFB-128 of the whole stream so far, in output and in final registers, whatever the sizes of the calls |
| `Cfb.CfbState.DecryptInPlace` | frp-core/src/cipher_stream.rs:131-161 | the same for decryption |
| `Cfb.ChunkingsIndependent` | frp-core/src/cipher_stream.rs:92-161 | whatever the call sizes on the two sides, the decrypting side holds the matching prefix of the plaintext, and at the same point of the stream all registers agree |
| `StreamMode.DecryptEncrypt` | frp-core/src/cipher_stream.rs:92-161 | decryption undoes encryption for every plaintext |
| `StreamMode.EncryptPrefix` | frp-core/src/cipher_stream.rs:92-128 | encrypting a prefix gives the prefix of the ciphertext, so encrypting in pieces is encrypting at once |
| `CipherWriter.OpeningAnswer` | frp-core/src/cipher_stream.rs:424-463 | the opening write fails exactly when the inner writer fails or takes nothing, and otherwise credits its buffer or parks the rest with a claim for it |
| `CipherWriter.LaterAnswer` | frp-core/src/cipher_stream.rs:497-523 | a later write likewise, parking without a claim |
| `CipherWriter.RetryAnswer` | frp-core/src/cipher_stream.rs:465-495 | and so its re-poll, which moves on in the same buffer |
| `CipherWriter.WriteOpeningWire` | frp-core/src/cipher_stream.rs:424-463 | the opening write, taken whole, in part, not at all or failing, keeps wire plus parked bytes equal to IV and ciphertext |
| `CipherWriter.WriteRetryWire` | frp-core/src/cipher_stream.rs:465-495 | so does draining a parked later write |
| `CipherWriter.WriteLaterWire` | frp-core/src/cipher_stream.rs:497-523 | so does a later write |
| `CipherWriter.PollWriteWire` | frp-core/src/cipher_stream.rs:367-524 | so does any `poll_write`, for any answer of the inner writer |
| `CipherWriter.FlushIvWire` | frp-core/src/cipher_stream.rs:598-627 | so does a flush that sends the IV eagerly |
| `CipherWriter.PollFlushWire` | frp-core/src/cipher_stream.rs:526-628 | so does any `poll_flush` |
| `CipherWriter.PollShutdownWire` | frp-core/src/cipher_stream.rs:630-673 | a discarding shutdown leaves a prefix of the stream on the wire, nothing parked and the plaintext untouched |
| `CipherWriter.WriteEncryptedWire` | frp-core/src/cipher_stream.rs:343-365 | with nothing parked, `send_iv` and `write_encrypted` keep the wire right, or a prefix of it when the inner writer fails anywhere |
| `CipherWriter.WriteEncryptedExact` | frp-core/src/cipher_stream.rs:355-365 | `write_encrypted` keeps the wire right for all data and all failures if and only if nothing is parked |
| `CipherWriter.WriteEncryptedTakes` | frp-core/src/cipher_stream.rs:343-365 | with nothing parked, the wire is the whole stream, or as much more of it as the inner writer took before it failed, and the answer says which |
| `CipherSession.WireTheorem` | frp-core/src/cipher_stream.rs:343-673 | in every run in which `write_encrypted` does not overtake a parked buffer, against every inner writer: wire plus parked remainder is IV and CFB ciphertext of all that was encrypted, at most one buffer is parked, and after an error or shutdown the wire is a prefix |
| `CipherSession.OvertakeExact` | frp-core/src/cipher_stream.rs:355-365 | after every such run one more `write_encrypted` keeps this for all data and failures if and only if nothing is parked |
| `CipherSession.OvertakeRun` | frp-core/src/cipher_stream.rs:355-365 | a flush that gets half of the IV out, then a `write_encrypted`: the payload lands inside the IV, and the wire is a prefix of the stream only if the bytes happen to agree |
| `CipherSession.PoliteIsOrderly` | frp-core/src/cipher_stream.rs:352-365 | it is enough that `write_encrypted` is never called right after a poll that returned Pending |
| `CipherSession.WriteLedger` | frp-core/src/cipher_stream.rs:367-524 | a `poll_write` with bytes owed encrypts nothing and hands out exactly those; with none owed it encrypts its buffer once or leaves it alone |
| `CipherSession.FlushLedger` | frp-core/src/cipher_stream.rs:526-628 | a flush with no later write parked moves no claim |
| `CipherSession.CreditTheorem` | frp-core/src/cipher_stream.rs:343-673 | in every run of a caller that re-polls with the same bytes and does not flush between a Pending later write and its re-poll (between a Pending first write and its re-poll it may), and calls `write_encrypted` with nothing in flight: credited bytes plus the outstanding claim are exactly the plaintext encrypted |
| `CipherSession.PoliteIsLawful` | frp-core/src/cipher_stream.rs:352-365 | the part of that about `write_encrypted` is met by a caller that calls it with no write pending and not right after a poll that returned Pending |
| `CipherSession.FlushExact` | frp-core/src/cipher_stream.rs:568-596 | a flush keeps the books whatever the inner writer answers if and only if no non-empty later write is parked |
| `CipherSession.DuplicatePayload` | frp-core/src/cipher_stream.rs:568-596 | in every other state there are answers after which the re-poll encrypts the payload a second time |
| `CipherSession.DuplicateRun` | frp-core/src/cipher_stream.rs:568-596 | a four-call run that credits two bytes and puts three on the wire |
| `CipherLine.WriteRefines` | frp-core/src/cipher_stream.rs:367-524 | every `poll_write`, whichever path it takes, is a write on a line with at most one run of bytes waiting and one claim: what goes out, what waits, what is owed, and the answer |
| `CipherLine.FlushRefines` | frp-core/src/cipher_stream.rs:526-628 | every `poll_flush` is a flush of that line |
| `CipherLine.ShutdownRefines` | frp-core/src/cipher_stream.rs:630-673 | every `poll_shutdown` is a shutdown of it |
| `CipherLine.WaitingGoesOut` | frp-core/src/cipher_stream.rs:379-421 | what waits shrinks with every answer that takes something, and the write that owns it is credited in full when it is gone |
| `CipherLine.WriteErrorEarned` | frp-core/src/cipher_stream.rs:367-524 | an inner writer that neither fails nor takes nothing makes no write fail |
| `CipherLine.FlushErrorEarned` | frp-core/src/cipher_stream.rs:526-628 | nor any flush |
| `CipherLine.ErrorsEarned` | frp-core/src/cipher_stream.rs:343-628 | in every orderly run of non-empty writes, flushes and uncut `write_encrypted` calls against such an inner writer, however it cuts and delays, no call fails |
| `CipherLine.EmptyWriteFails` | frp-core/src/cipher_stream.rs:465-495 | a parked empty write fails at the next answer that the inner writer is ready |
| `CipherReader.ReaderTheorem` | frp-core/src/cipher_stream.rs:207-273 | for any fragmentation, split IV included, and any read sizes, the output is a prefix of the plaintext, and all of it once the whole stream is read |
| `CipherReader.EofInsideIv` | frp-core/src/cipher_stream.rs:216-239 | a stream that ends inside the IV yields no plaintext in any run, and the read that meets the end reports it |
| `CipherReader.ReadErrorsEarned` | frp-core/src/cipher_stream.rs:207-273 | in every run of reads over a stream that holds its IV and does not break, no read fails |
| `CipherReader.ReadProgress` | frp-core/src/cipher_stream.rs:216-272 | every answer with bytes moves the reader on, towards its IV or by plaintext that fits; a failure is reported and an answer that is not ready makes it wait |
| `CipherReader.WaitingEarned` | frp-core/src/cipher_stream.rs:229-261 | with the IV complete the reader waits only if the inner stream was not ready, so the read that completes the IV goes on to the payload |
| `CipherReader.EndToEnd` | frp-core/src/cipher_stream.rs:207-673 | for any lawful writer schedule, any inner writer and any reading of any prefix of the wire: the output is a prefix of credited bytes plus claim; with nothing parked and the wire read to its end it is all of that, and the credited bytes when nothing is owed |
| `CipherObjects.CipherWriterState.constructor` | frp-core/src/cipher_stream.rs:324-339 | a new writer has sent nothing and parked nothing |
| `CipherObjects.CipherWriterState.SendIv` | frp-core/src/cipher_stream.rs:343-350 | sends the IV once and starts the cipher; later calls do nothing |
| `CipherObjects.CipherWriterState.WriteEncrypted` | frp-core/src/cipher_stream.rs:355-365 | the stateful method is the specified transition, in-place encryption of the caller's buffer included |
| `CipherObjects.CipherWriterState.PollWrite` | frp-core/src/cipher_stream.rs:367-524 | the stateful method, fields, cipher object and inner writer, is the specified transition; `WriteRefines` and `ErrorsEarned` are about it |
| `CipherObjects.CipherWriterState.PollFlush` | frp-core/src/cipher_stream.rs:526-628 | likewise |
| `CipherObjects.CipherWriterState.PollShutdown` | frp-core/src/cipher_stream.rs:630-673 | likewise |
| `CipherObjects.CipherReader.PollRead` | frp-core/src/cipher_stream.rs:208-272 | likewise for the reader |
| `Crc32c.ByteByByte` | frp-core/src/crc32c.rs:36-45 | shifting a byte in bit by bit is XORing it into the register and stepping eight times |
| `Crc32c.ByteLinear` | frp-core/src/crc32c.rs:38-45 | eight steps of the register are additive over XOR and lose nothing |
| `Crc32c.BuildTable` | frp-core/src/crc32c.rs:32-50 | the base table holds every byte advanced by one zero byte |
| `Crc32c.BuildSlice8Table` | frp-core/src/crc32c.rs:54-70 | table k holds every byte advanced by k + 1 zero bytes |
| `Crc32c.RegisterEight` | frp-core/src/crc32c.rs:88-97 | eight message bytes take the register to the XOR of the eight lanes' table values |
| `Crc32c.AbsorbEight` | frp-core/src/crc32c.rs:88-98 | one round of slicing is eight bytes of the definition |
| `Crc32c.Slices` | frp-core/src/crc32c.rs:84-99 | the slicing loop absorbs all but the last one to eight bytes, so the exit for an empty rest is never taken |
| `Crc32c.Tail` | frp-core/src/crc32c.rs:115-121 | the byte loop continues the definition, complements included |
| `Crc32c.Checksum` | frp-core/src/crc32c.rs:77-108 | for every input, cutoff and tail included, the result is the bit-at-a-time CRC-32C |
| `Crc32c.MaskedChecksum` | frp-core/src/crc32c.rs:130-133 | the masked form of that value |
| `Crc32c.CheckValue` | frp-core/src/crc32c.rs:30-133 | the digits 1 to 9 have the published check value 0xE3069283, masked 0xC78AB0E5 |
| `Crc32c.MaskInvertible` | frp-core/src/crc32c.rs:130-133 | rotating and adding is invertible |
| `Crc32c.RegisterBits` | frp-core/src/crc32c.rs:32-50 | the register after a message is the fold of its bits in the order they are shifted in |
| `Crc32c.RegisterDistinct` | frp-core/src/crc32c.rs:32-50 | different registers stay different over the same bytes |
| `Crc32c.BurstDetected` | frp-core/src/crc32c.rs:77-133 | two inputs of one length that differ, and only inside 32 consecutive bits starting anywhere, have different checksums and different masked checksums |
| `TunnelSlot.StepKeeps` | frp-client/src/visitor.rs:340-531 | every step of every task keeps the session invariant: who knows which session, who closed it, who evicted it |
| `TunnelSlot.Reachable` | frp-client/src/visitor.rs:340-531 | the invariant holds after every interleaving |
| `TunnelSlot.ClosedSessionsLeave` | frp-client/src/visitor.rs:510-531 | in every run a closed session is in the slot only while some call is between closing it and clearing it |
| `TunnelSlot.CapacityNeverCloses` | frp-client/src/visitor.rs:457-504 | in every run sessions are closed only by replacement or by an error that is no capacity error, and a busy error closes only under `close_on_timeout`; `OpenNextExact` and `CondemnedLeaves` are the other direction |
| `TunnelSlot.EvictedOnce` | frp-client/src/visitor.rs:510-531 | in every run each session is evicted at most once, with at most one re-punch signal, after a failure seen on that very session, and never comes back |
| `TunnelSlot.OnlyOwnFailureEvicts` | frp-client/src/visitor.rs:376-382 | in every reachable state the slot loses a session only to a newer one swapped in or to a call that closed that session: an old failure never evicts a newer session |
| `TunnelSlot.NoneForgotten` | frp-client/src/visitor.rs:376-382 | every session that has left the slot is closed or about to be |
| `TunnelSignals.StepKeeps` | frp-client/src/visitor.rs:340-400 | every step keeps the signal invariant: one signal at most, its relation to drains, punches and the clock |
| `TunnelSignals.Reachable` | frp-client/src/visitor.rs:340-531 | the invariant holds after every interleaving |
| `TunnelSignals.OneSignalWaits` | frp-client/src/visitor.rs:367-372 | in every run at most one signal waits |
| `TunnelSignals.PunchesSpaced` | frp-client/src/visitor.rs:371-397 | in every run punches j and k start at least (k - j) times ten seconds apart, and no signal causes two |
| `TunnelSignals.CausedAfterDrain` | frp-client/src/visitor.rs:367-374 | each punch is caused by a signal sent after the latest drain, never by one a drain found |
| `TunnelSignals.SignalFate` | frp-client/src/visitor.rs:367-372 | a signal queued between a drain and the next receive stays until the puncher takes it and punches for it, unless cancelled; one queued at any other moment never causes a punch |
| `TunnelSignals.FirstSendNeedsDrain` | frp-client/src/visitor.rs:604-611 | the keepalive worker's first send causes a punch only if it lands after the first drain |
| `TunnelSignals.FirstSendLost` | frp-client/src/visitor.rs:604-611 | a run in which it lands before and the puncher parks with nothing to do |
| `TunnelSignals.GateMeansParked` | frp-client/src/visitor.rs:446-454 | a call goes on to signal only when the puncher is parked, just past its receive, or gone |
| `TunnelCalls.OpenNextExact` | frp-client/src/visitor.rs:457-477 | a result of `open_stream` leads to closing the session exactly when it is an error that condemns it |
| `TunnelCalls.Taxonomy` | frp-client/src/visitor.rs:480-504 | running out of streams or of queue never condemns, a timeout does under `close_on_timeout`, a closed session always does |
| `TunnelCalls.SeesSlot` | frp-client/src/visitor.rs:442-456 | the session a call works on is the one that was in the slot when it looked |
| `TunnelCalls.CondemnedLeaves` | frp-client/src/visitor.rs:457-531 | in every run a call whose `open_stream` met a condemning error returns only after that session is closed and out of the slot, for good |
| `TunnelCalls.EvictionSignals` | frp-client/src/visitor.rs:510-531 | a call that evicts its session with the gate open puts a signal in the channel, or finds one there |
| `TunnelCalls.EmptySlotSignals` | frp-client/src/visitor.rs:446-454 | so does a call that finds the slot empty, and gives the lock back |
| `TunnelCalls.ShutGateSilent` | frp-client/src/visitor.rs:446-531 | with the gate shut neither sends, and both return |
| `TunnelCalls.SignalPunches` | frp-client/src/visitor.rs:369-374 | a parked worker that finds a signal starts a punch for it at once, gate shut |
| `TunnelCalls.PunchInstalls` | frp-client/src/visitor.rs:374-385 | a punch that succeeds puts its session in the slot and closes the one it replaces |
| `TunnelCalls.RestsTenSeconds` | frp-client/src/visitor.rs:367-397 | the worker drains, opens the gate and parks again ten seconds after the start of the punch, and not before |
| `TunnelCalls.SpacingIsTight` | frp-client/src/visitor.rs:371-397 | punches can start ten seconds apart to the millisecond, so the bound on their spacing is exact |
| `TunnelCalls.CancelEnds` | frp-client/src/visitor.rs:369-395 | a worker cancelled while parked or resting punches no more in any later run, and installs no session |
| `Bandwidth.BandwidthLimiter.constructor` | frp-core/src/bandwidth.rs:38-45 | the bucket starts full |
| `Bandwidth.BandwidthLimiter.Refill` | frp-core/src/bandwidth.rs:91-99 | the method is the specified refill |
| `Bandwidth.BandwidthLimiter.Reserve` | frp-core/src/bandwidth.rs:115-129 | the method is the specified reservation, balance and wait |
| `Bandwidth.BandwidthLimiter.Consume` | frp-core/src/bandwidth.rs:73-81 | reserves under the lock and wakes at the release time |
| `Bandwidth.FirstReservation` | frp-core/src/bandwidth.rs:38-45 | a new bucket lets one second of the rate through at once and throttles anything larger |
| `Bandwidth.FreePass` | frp-core/src/bandwidth.rs:115-118 | without a rate, or for no bytes, nothing waits and nothing changes |
| `Bandwidth.ClockBack` | frp-core/src/bandwidth.rs:91-99 | a clock reading before the last one credits nothing |
| `Bandwidth.ClearNext` | frp-core/src/bandwidth.rs:115-129 | every reservation pushes the moment at which the balance is zero on by n / rate, from at most one second before it |
| `Bandwidth.ReleaseIsClear` | frp-core/src/bandwidth.rs:115-129 | a reservation is released when made or when the balance is clear, whichever is later, and waits exactly when the latter |
| `Bandwidth.ReleasedInOrder` | frp-core/src/bandwidth.rs:73-129 | in every run non-empty reservations are released in reservation order |
| `Bandwidth.BackToBack` | frp-core/src/bandwidth.rs:131-143 | a reservation made at or before the release of a throttled one is released exactly n / rate after it |
| `Bandwidth.WindowBound` | frp-core/src/bandwidth.rs:73-129 | in any window of any run the bytes whose wait ends in it total at most max(rate, largest reservation) + rate times the window |
| `Bandwidth.DebtIsAsleep` | frp-core/src/bandwidth.rs:101-129 | at any time the debt is at most the sum of the reservations still asleep |
| `Bandwidth.DebtPilesUp` | frp-core/src/bandwidth.rs:112-129 | k simultaneous reservations of n leave k times n less in the bucket |
| `Bandwidth.DebtBeatsLargest` | frp-core/src/bandwidth.rs:112-114 | two simultaneous reservations above the rate leave more debt than either |
| `Bandwidth.DebtWithinLargest` | frp-core/src/bandwidth.rs:112-129 | the debt after a reservation is within m, any size no less than its own such as the largest, exactly when the bucket was to be clear within (m - n) / rate of it |
| `Bandwidth.DebtWithinLargestRun` | frp-core/src/bandwidth.rs:112-129 | over a whole run the debt stays within the largest reservation exactly when every reservation finds the bucket clear that soon |
| `Bandwidth.DebtWithinOwn` | frp-core/src/bandwidth.rs:112-129 | it is within the reservation's own size exactly when the bucket was clear |
| `Framer.EncodeLe` | frp-client/src/work_conn.rs:217-218 | the four bytes that read back as the length |
| `Framer.SmallLength` | frp-client/src/work_conn.rs:217-218 | a length below 256 is its byte and three zeros |
| `Framer.LengthOfByte` | frp-client/src/work_conn.rs:217-218 | the other three bytes count for 256, 65536 and 16777216 |
| `Framer.PacketExact` | frp-client/src/work_conn.rs:149-185 | a packet is read exactly where its frame, of a length within bounds, stands at the front of the wire |
| `Framer.ErrorsExact` | frp-client/src/work_conn.rs:113-174 | exactly when the end, a zero length, an excessive length and an unexpected end are reported |
| `Framer.ParseExtends` | frp-client/src/work_conn.rs:149-174 | once decided, what comes next does not depend on later bytes |
| `Framer.ReadRoomy` | frp-client/src/work_conn.rs:113-142 | a read that completes a frame leaves less than one read after it |
| `Framer.TunnelPacketReader.constructor` | frp-client/src/work_conn.rs:80-101 | a new reader has nothing buffered |
| `Framer.TunnelPacketReader.TakeCompleteMessage` | frp-client/src/work_conn.rs:149-185 | takes exactly the first message of the unread bytes, or its error, or nothing; drops the consumed prefix exactly when that has reached 4096 bytes with fewer than 4096 after it |
| `Framer.TunnelPacketReader.ReadMore` | frp-client/src/work_conn.rs:113-143 | a read moves bytes from source to buffer and keeps the buffer within 2^20 + 8194 bytes |
| `Framer.TunnelPacketReader.NextPacket` | frp-client/src/work_conn.rs:104-145 | returns what plain parsing of all undelivered bytes finds; after a packet both the consumed prefix and the unread rest are at most 4095 bytes and the buffer has never exceeded 2^20 + 8194; after the end it returns none |
| `Framer.TunnelPacketReader.ReadAll` | frp-client/src/work_conn.rs:104-145 | repeated calls deliver exactly what parsing the whole wire gives |
| `Framer.ParseFrames` | frp-client/src/work_conn.rs:149-185 | frames are delivered one for one whatever follows them |
| `Framer.ReceiveAll` | frp-client/src/work_conn.rs:104-185 | for any packets of 1 to 2^20 bytes and any split into reads of at most 4096 bytes: exactly those packets, then the end |
| `Framer.ReceiveCut` | frp-client/src/work_conn.rs:113-125 | the wire cut inside a frame: the complete packets, then UnexpectedEof, then the end |
| `Framer.DeliveredIsFramed` | frp-client/src/work_conn.rs:149-185 | on any wire the delivered packets, framed again, are a prefix of it |
| `Framer.TunnelPacketWriter.WritePacket` | frp-client/src/work_conn.rs:199-227 | appends one frame, or nothing and an error, with the 32-bit cut of the length |
| `Framer.WrittenReadsBack` | frp-client/src/work_conn.rs:204-219 | an accepted packet reads back exactly when its length did not need cutting |
| `Base64.LetterDecodes` | frp-core/src/base64.rs:77-86 | the decoder's table undoes the alphabet and the pad is no letter |
| `Base64.DecodedIsLetter` | frp-core/src/base64.rs:77-86 | and the other way round |
| `Base64.FirstLetters` | frp-core/src/base64.rs:14 | the first half of the alphabet, written out |
| `Base64.LastLetters` | frp-core/src/base64.rs:14 | the second half, and the pad |
| `Base64.Encode` | frp-core/src/base64.rs:46-75 | the loop and its remainder cases compute the group-wise encoding |
| `Base64.DecodeOne` | frp-core/src/base64.rs:98-119 | one turn of the loop: the group's bytes or its error with its position |
| `Base64.Decode` | frp-core/src/base64.rs:90-123 | the loop computes the group-wise decoding with the first error's position |
| `Base64.DecodeEncode` | frp-core/src/base64.rs:46-123 | decoding undoes encoding for all byte strings |
| `Base64.EncodedCanonical` | frp-core/src/base64.rs:46-75 | every encoding has padding only in its last group and zero leftover bits |
| `Base64.EncodeDecode` | frp-core/src/base64.rs:46-123 | for every accepted text, encoding undoes decoding exactly when the text is canonical |
| `Base64.DecodeConcat` | frp-core/src/base64.rs:90-123 | decoding distributes over concatenation of whole groups, errors and positions included |
| `Base64.InteriorPadding` | frp-core/src/base64.rs:102-119 | two encodings in a row decode to the two byte strings in a row |
| `Base64.ErrorNamesPlace` | frp-core/src/base64.rs:98-116 | every error position holds a character that is no letter, or a pad followed by something else |
| `Base64.DecodeExact` | frp-core/src/base64.rs:88-123 | a text is accepted exactly when it is made of groups of four letters, three and a pad, or two and two pads |
| `Base64.CulpritNamed` | frp-core/src/base64.rs:88-123 | the first thing wrong in a text is what the error names, with its position and kind |
| `Base64.DecodeErrors` | frp-core/src/base64.rs:88-123 | every refused text is told its length, if that is no multiple of four, or the first thing wrong in it |
| `Health.HealthState.OnCheck` | frp-client/src/health.rs:296-320 | the transition and the action asked for |
| `Health.Turn` | frp-client/src/health.rs:201-231 | one turn keeps the fields equal to what the session's history says and asks for what that history calls for, which `AskedExact` spells out |
| `Health.RunHealthCheck` | frp-client/src/health.rs:155-244 | over any probe results, delivery failures and session changes, the loop asks for and delivers exactly what the history-based definition says, which `AskedExact` spells out |
| `Health.RecoverMeansHealthy` | frp-client/src/health.rs:309-319 | whenever the state is not failed it has been healthy, so the health gate never decides |
| `Health.Alternates` | frp-client/src/health.rs:201-231 | between two re-arms the delivered events alternate strictly, Recover first |
| `Health.CloseNeedsStreak` | frp-client/src/health.rs:310-319 | Close is asked for only when at least max_failed probes have been made and each of the last max_failed failed in this session |
| `Health.AskedExact` | frp-client/src/health.rs:296-320 | exactly what each turn of a run asks for and delivers: Recover on a success with an even number of events delivered in the session, Close on the last of max_failed failures in a row with an odd number, nothing otherwise; delivered if there is room |
| `Health.FirstSuccessRecovers` | frp-client/src/health.rs:161-169 | after each session change the first success asks for Recover |
| `Store.LoadUndoesSave` | frp-client/src/store.rs:289-317 | loading what was saved gives the maps back, in any order of the values |
| `Store.Disk.Save` | frp-client/src/store.rs:309-372 | a save replaces the file with one that loads to the maps, or fails and leaves it, and leaves no temporary file behind |
| `Store.Disk.Load` | frp-client/src/store.rs:289-307 | all entries, or none if one is invalid or the file does not parse |
| `Store.Open` | frp-client/src/store.rs:64-78 | a missing file opens empty, a bad one is an error, and a store that opens is in sync with its file |
| `Store.StoreSource.Add` | frp-client/src/store.rs:120-135 | all or nothing, memory and file, with the exact refusal; stays in sync |
| `Store.StoreSource.Update` | frp-client/src/store.rs:137-152 | likewise: on success the name holds the new entry, in memory and in the file |
| `Store.StoreSource.Remove` | frp-client/src/store.rs:154-170 | likewise: on success the name is gone |
| `Store.StoreSource.ReadFile` | frp-client/src/store.rs:91 | the half of a reload that runs without the lock |
| `Store.StoreSource.Install` | frp-client/src/store.rs:92-94 | the half under the lock |
| `Store.StoreSource.Reload` | frp-client/src/store.rs:90-96 | with nothing in between, takes the whole file or changes nothing |
| `Store.RunAll` | frp-client/src/store.rs:59-223 | after any operations and reloads one after another, with any save failures, memory is what a fresh load gives (or both are empty), every key is its entry's name, and the content is what the successful operations made it |
| `Store.OnlyItsName` | frp-client/src/store.rs:120-222 | an operation changes what its own name holds, only if it succeeds, and nothing else |
| `Store.OperationExact` | frp-client/src/store.rs:120-170 | an operation succeeds exactly when its entry is valid, its name is absent (add) or present (update, remove) and the save does not fail; then the name holds the new entry, or nothing after a removal |
| `Store.RefusalExact` | frp-client/src/store.rs:120-170 | otherwise it reports the first of: invalid, conflict or not found, persist |
| `Store.LastOfNameCounts` | frp-client/src/store.rs:295-305 | of several entries of one name in a file the last one counts |
| `Store.RemoveUndoesAdd` | frp-client/src/store.rs:120-170 | removing what was added gives the maps back |
| `StoreInterleaving.RunInterleaved` | frp-client/src/store.rs:59-223 | the store, run through any interleaving of operations, failures and any number of half-done reloads, is in the state the machine says |
| `StoreInterleaving.MemoryWasSaved` | frp-client/src/store.rs:88-170 | in every interleaving memory and every reload under way hold, whole, a content that was saved or that memory started with, and every key is its entry's name |
| `StoreInterleaving.SyncExact` | frp-client/src/store.rs:90-96 | in every reachable state: after an installation memory agrees with the file if and only if the file still loads to what that reload read; a successful operation restores agreement; nothing else changes it |
| `StoreInterleaving.SyncUnlessOvertaken` | frp-client/src/store.rs:90-96 | if no operation succeeds between a reload's read and its installation, memory agrees with the file all along |
| `StoreInterleaving.SavesWhatMemoryHad` | frp-client/src/store.rs:129-133 | an operation on memory that is behind saves that memory: of every other name the file then holds what memory held |
| `StoreInterleaving.ForgottenInMemory` | frp-client/src/store.rs:90-96 | read, add, install: memory lacks an entry that the file holds |
| `StoreInterleaving.LostOnDisk` | frp-client/src/store.rs:90-135 | read, add one, install, add another: both reported as done, and the file holds only the second |
| `Snapshots.SortSame` | frp-client/src/reload.rs:352 | sorted field lists are equal exactly when the fields are the same |
| `Snapshots.MapOrder` | frp-client/src/reload.rs:228-231 | two iterations of one map sort to one list |
| `Snapshots.SortedMap` | frp-client/src/reload.rs:228-231 | the rendering does not depend on the iteration order |
| `Snapshots.ConfigSnapshot` | frp-client/src/reload.rs:233-355 | builds the sorted, joined snapshot of the rendered fields |
| `Snapshots.ChainUnique` | frp-client/src/reload.rs:353-354 | fields free of each other's markers are read back from the joined text one way only |
| `Snapshots.SnapshotExact` | frp-client/src/reload.rs:245-354 | snapshots of any two field lists are equal exactly when the fields are the same, if no value of either holds a bar followed by a key of the other and an equals sign |
| `Snapshots.TwinExact` | frp-client/src/reload.rs:353-354 | a field list shares its joined text with another under the same keys if and only if some value holds the next key's marker or, not being the first, its own |
| `Snapshots.SnapshotShared` | frp-client/src/reload.rs:352-354 | the same for snapshots of configs of any number of fields |
| `Snapshots.ChangeDetected` | frp-client/src/reload.rs:233-355 | under that hypothesis and an injective secret hash, snapshots differ exactly when some setting differs |
| `Snapshots.SecretsHidden` | frp-client/src/reload.rs:235-244 | nothing of a secret shows but its hash: configs that differ in secrets of one hash have one snapshot |
| `Snapshots.SettingsShow` | frp-client/src/reload.rs:233-354 | every setting is in the snapshot under its key, as it is or as its hash; an empty secret stays empty |
| `Snapshots.MarkerCollides` | frp-client/src/reload.rs:353-354 | in any config, text that holds the next key's marker can be cut there instead, with the same joined text |
| `Reload.ChangedProxies` | frp-client/src/reload.rs:406-427 | the loop finds exactly the common names whose registered snapshot differs |
| `Reload.DoReload` | frp-client/src/reload.rs:379-496 | removed and added are the differences of the two name sets, either way, and the whole delta is the one that `DeltaExact`, `ReportExact` and `VisitorsExact` are about, early return included |
| `Reload.DeltaExact` | frp-client/src/reload.rs:385-427 | with unique names and the user unchanged, the delta names exactly the removed, the added and the changed proxies; with the unchanged ones they partition both sides, and the delta turns the old proxies into the new |
| `Reload.ReportExact` | frp-client/src/reload.rs:442-458 | a reload says that nothing changed exactly when no proxy was removed, added or changed and no visitor came or went |
| `Reload.NameOfExact` | frp-client/src/reload.rs:391-398 | a key of the user's gives the name it was made from, any other key is its own name |
| `Reload.FirstIsFirst` | frp-client/src/reload.rs:418-421 | of several new proxies of one name the first is compared |
| `Reload.OtherUser` | frp-client/src/reload.rs:385-427 | proxies registered under another user's keys are removed by their whole keys, none counts as changed |
| `Reload.ChangedSettings` | frp-client/src/reload.rs:406-427 | a name is reported as changed exactly when the old config and the new one under it differ in some setting |
| `Reload.VisitorsExact` | frp-client/src/reload.rs:429-470 | the delta carries the old visitors to the new ones exactly when no visitor was edited, or a proxy was removed, added or changed, or a visitor came or went |
| `Reload.EditMissed` | frp-client/src/reload.rs:442-458 | a reload that only edits a visitor reports no change |
| `Backoff.Retries.Prune` | frp-client/src/backoff.rs:36-41 | keeps what is in the window, in order, and counts it |
| `Backoff.Retries.DelayAfterSession` | frp-client/src/backoff.rs:23-32 | records, prunes and picks the delay |
| `Backoff.KeptIsRecent` | frp-client/src/backoff.rs:36-41 | for a clock that does not go back, the pruned list is the recent part of the whole history |
| `Backoff.AtMostThreeFast` | frp-client/src/backoff.rs:81-88 | in any 60 s window at most three retries are fast |
| `Backoff.FirstThreeFast` | frp-client/src/backoff.rs:81-88 | the first three retries are always fast |
| `Backoff.FastDelayBounds` | frp-client/src/backoff.rs:81-88 | a fast delay is the whole milliseconds of 200 times the jitter, 100 to 300 |
| `Backoff.SlowExact` | frp-client/src/backoff.rs:100-111 | a slow delay is exactly the whole milliseconds of twice the base times the jitter, or the cap if that is more |
| `Backoff.FirstSlow` | frp-client/src/backoff.rs:100-111 | after the first error, or after no delay, it is 1800 to 2200 ms |
| `Backoff.SlowStep` | frp-client/src/backoff.rs:100-111 | a slow delay grows by at least 9/5 up to the cap and is no shorter than the one before exactly when that was within the cap |
| `Backoff.SlowClimbs` | frp-client/src/backoff.rs:90-111 | consecutive slow delays never decrease and never pass 20 s |
| `Backoff.CapWithinTen` | frp-client/src/backoff.rs:90-111 | from any delay of at least 100 ms they reach 20 s within ten steps and stay there, for every jitter |
| `Backoff.Reconnects` | frp-client/src/backoff.rs:23-112 | over a run of failing sessions each delay is exactly the fast one of its jitter or the slow one the previous delay calls for |

## Left out

- AES, the random IV, key wiping, MD5 and PBKDF2: foreign primitives; AES is a parameter and the IV is given.
- Wakers and executor fairness: a poll happens whenever the run says so; nothing is claimed about when.
- An inner stream's error ends a session: nothing is modelled after it.
- `flush` and `shutdown` of the inner writer itself: one answer each.
- `StoreError` and `io::Error` texts: errors are kinds.
- `Framer.TunnelPacketReader.NextPacket`: an inner read error is not modelled, because it only passes through; Snappy compression, for which the buffer bound does not hold, is left out.
- Tunnel: the keepalive worker's later probes are ordinary calls of `get_tunnel_conn` here; its ticker, its retry token bucket (`wait_for_retry_token`), `open_tunnel`'s polling and `do_hole_punch` are left out, and the signal channel is never closed.
- Tunnel: the shared state is a value that the steps map to the next one, since the point is their interleaving; in the source it sits behind a mutex, an atomic and a channel.
- Bandwidth: rounding of floating-point balances; the gates that decide which side owns a limiter (`client_side_limiter`, `server_side_limiter`, `shared`).
- Health: probing itself (TCP, HTTP, redirects), the startup delay and the waits; the failure counter is unbounded.
- Store: JSON text, file modes and directory syncing; `merge_client_config`, which rests on a helper that is not part of this model, and the sorted listings.
- `Snapshots.ConfigSnapshot`: the source's 40 or 61 field names are any keys here, distinct and without `=` or `|` where that is needed, because spelling them out would only add easy members; rendering of lists and JSON is a given string.
- Reload: `auth_reload_refusal` and the restart of plugins.
- Backoff: saturation of durations and 32-bit overflow of the error count; when the service resets that count.
- `frp-client/src/admin.rs`, `metrics_server.rs`, `control.rs`, `proxy.rs`, `nat_hole.rs`, `vnet.rs`, `service.rs`, the rest of `work_conn.rs` and `visitor.rs`, and the server: routing, dialing, sockets and task spawning.
- `frp-core/src/backoff.rs`, `buffer_pool.rs`, `config_store.rs`, `control_sink.rs`, `system.rs`: easy members or interfaces.
