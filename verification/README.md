# A model of the piece-download engine

This project models the part of the BitTorrent client that turns peers' messages
into files: the sessions that download pieces from several peers at once over one
shared tracker, the geometry and assembly of pieces, the layout of pieces on disk,
the peer wire codec, and the walk that finds the original bytes of the `info`
dictionary. `dafny verify dfyconfig.toml` checks the whole project.

## How the model is built

* **Values first.** `Assembler.Assembly`, `Tracking.Tracker` and the state of
  `Swarm` are plain values with functions on them. `Swarm.Step` is one atomic step
  of one session: one critical section of the shared tracker, or one await point.
  `Swarm.IsRun` is any interleaving of such steps with pauses, resumptions,
  cancellations, the end of the coordinator and the end of the receiver, for any
  number of sessions and any messages, time-outs, closes and errors.
* **Objects against values.** `Bitfields.Bitfield`, `Assembler.PieceAssembler`,
  `Tracking.PieceTracker`, `Stats.SwarmStats`, `Codec.PeerCodec`,
  `Disk.Storage`, `Sessions.Coordinator` and `Sessions.PeerSession` update
  their fields in place as the program does; each method is proved to do to the
  objects what the functions do to their values. `Sessions.PeerSession.Perform`
  ties every step of a session to `Swarm.Step`, so what is proved about runs is
  about these methods.
* **Invariants.** `Invariants` holds what each step keeps for the session it
  happens to and what it may do to the others; `Runs` adds the statements that
  count over all sessions; `Theorems`, `Pipeline`,
  `Returning`, `Ledger`, `Delivery`, `Completion` and `Alone` draw the conclusions.
* **Histories.** `History` and `Trace` say of every state of every run which actions
  brought it about, without naming the functions that did.

| file | what it models |
|---|---|
| `Metainfo.dfy`, `Piece.dfy` | sizes of a torrent, piece and block arithmetic |
| `Assembler.dfy` | one piece assembled from blocks |
| `Bitfields.dfy`, `Tracking.dfy`, `Stats.dfy` | the shared tracker and the byte counters |
| `Wire.dfy`, `Codec.dfy`, `Framing.dfy` | the peer messages section of BEP 3 |
| `Bencode.dfy`, `Grammar.dfy` | the bencoding section of BEP 3, walked without parsing |
| `Disk.dfy`, `Delivery.dfy` | pieces onto files, and the whole way from a run to the files |
| `Swarm.dfy`, `Invariants.dfy`, `Runs.dfy`, `Theorems.dfy`, `Pipeline.dfy`, `Returning.dfy`, `Ledger.dfy` | the concurrent protocol |
| `History.dfy`, `Trace.dfy` | what each state of a run says about the actions that led to it |
| `Scenarios.dfy` | runs that reach what the theorems allow for |
| `Session.dfy` | the coordinator and one session as objects |
| `Greetings.dfy`, `Seeder.dfy`, `Completion.dfy`, `Alone.dfy` | total correctness with a faithful seeder |

## Where the code and its words differ

The model follows the code. Each difference is settled by a lemma.

* `src/download/piece.rs:139-140` calls a repeated block a harmless no-op. It
  overwrites the bytes. `Assembler.RedeliveryHarmlessIff`: nothing changes exactly
  when the block carries the bytes already there; `Assembler.RedeliveryOverwrites`
  is a case in which they differ.
* "Complete" in `src/download/piece.rs:167-170` does not mean that every byte
  arrived, since short blocks are accepted, nor does the arrival of every byte mean
  completion: `Assembler.CompleteWithoutData`, `Assembler.ArrivedButIncomplete`.
  `Assembler.CompleteAndArrivedIff` and `Assembler.RebuildsIff` say exactly when
  each holds, for any blocks; `Assembler.AnyOrderAssembly` follows for whole ones.
* An empty block at the end of a piece that is a whole number of blocks indexes
  past `received` (`src/download/piece.rs:158-160`) and ends the session without any
  cleanup. `Theorems.PanicHasOneCause`: this is the only way a step panics.
  `Theorems.AvailabilityIsLiveCount`: the availability of a piece equals the
  number of live peers offering it exactly as long as no task that offered it has
  panicked; `Scenarios.PanicDistortsAvailability` reaches the other case.
* `src/download/stats.rs:134-135` promises `wire_bytes >= bytes_done`.
  `Scenarios.ShortBlockIsNotPaid` is a run in which it fails, for any hash.
  `Ledger.StepPaysIff` says exactly which steps break it, `Ledger.RunAccount` is
  the exact account of every run, and `Ledger.BytesAreConserved` proves it, and
  more, for every run without such steps.
* `src/download/state.rs:23` describes `claimed` as the pieces being downloaded.
  `Theorems.ClaimHistory` says exactly what is claimed at any point of any run, and
  `Theorems.ClaimDiscipline` how that relates to the sessions: exactly the pieces
  they keep until the first endgame reservation, and no others afterwards.
  `Scenarios.SharedClaimIsLost` reaches a piece in work that is not claimed, and
  `Scenarios.FailureLeaksClaim` a claimed one that nobody works on, until the
  endgame takes the claim off. Neither can strand a piece:
  `Theorems.NoUsefulSessionIdles`.
* `src/download/mod.rs:166-169` lets `run` return once the torrent is complete. A
  pause can keep it from returning for as long as it lasts. `Returning.ReturnsIff`:
  once completion is announced, the run can return without a control change, and
  without help from any peer, exactly when no session is kept by a pause.
* `src/download/mod.rs:249` calls `in_flight` the outstanding requests, and
  `src/download/mod.rs:322-324` promises that a silent peer does not keep its piece
  for ever. A repeated block lowers the counter without answering a request.
  `Pipeline.InFlightIsExact` and `Pipeline.InFlightCountsRequestsIff` say what it
  counts, `Pipeline.StallsIff` when the time-out is possible, and
  `Scenarios.RepeatedBlockStalls` is a run in which a silent peer keeps its piece.
* `src/peer/message.rs:32-35` puts its limit comfortably above any legitimate block.
  It is also the limit of a bitfield: a torrent of more than 8388600 pieces is
  accepted, and a peer that greets with its bitfield ends the session
  (`Alone.LargeTorrentFails`). `Alone.SeederCompletesIff` is the exact condition.
* `Info::total_length` sums without a check while the file map is checked:
  `Disk.MappedTotalIsDeclared`, `Disk.DeclaredTotalWraps`.
* The number of pieces is cut to 32 bits in the geometry and not in the tracker:
  `Swarm.ConfigureIsWellFormed` says when the two agree, and `Swarm.PieceCountWraps`
  is a torrent for which they do not. The theorems on runs
  assume that they do.

## Model

| member | source | states |
|---|---|---|
| `Metainfo.PieceHashes` | src/metainfo.rs:124-132 | hashes exist exactly when the field is a whole number of them, and then one for each piece |
| `Metainfo.HashesAreTheField` | src/metainfo.rs:124-132 | each is 20 bytes, and laid end to end they are the field |
| `Metainfo.HashAt` | src/metainfo.rs:124-132 | hash `i` is the twenty bytes from position `20 * i` on |
| `Metainfo.TotalLengthIs` | src/metainfo.rs:135-152 | exactly one description of the files must be there; the file lengths and the declared total, modulo 2^64, are those it gives |
| `Piece.FromInfoAcceptsIff` | src/download/piece.rs:31-62 | a torrent is accepted exactly when it is not empty, its piece length is a positive 32-bit number and its hashes, counted in 32 bits, are as many as the pieces needed |
| `Piece.CeilingIsUnique` | src/download/piece.rs:45-54 | the checks on the last piece leave exactly one possible number of pieces |
| `Piece.PiecesTile` | src/download/piece.rs:77-88 | pieces follow one another without gap or overlap and end at the total length |
| `Piece.PiecesPartition` | src/download/piece.rs:77-88 | every stream position lies in one piece and in no other |
| `Piece.BlockExists` | src/download/piece.rs:91-93 | a block number is valid exactly when the block starts inside its piece |
| `Piece.BlocksTile` | src/download/piece.rs:91-105 | the blocks of a piece follow one another and end at its end |
| `Piece.RequestIsExact` | src/download/piece.rs:96-105 | no 32-bit step of a request wraps; it names block `k`, of 16384 bytes or what is left, is not empty and lies inside its piece |
| `Piece.BlockLengthsSum` | src/download/piece.rs:91-105 | the block lengths of a piece add up to the piece |
| `Assembler.FreshIsValid` | src/download/piece.rs:120-129 | a new assembler counts all its blocks as missing and is not complete |
| `Assembler.AddBlockKeepsValid` | src/download/piece.rs:141-165 | `remaining` stays the number of unset flags, drops by one for a new block and never underflows |
| `Assembler.CompleteIff` | src/download/piece.rs:168-170 | complete exactly when every block is marked |
| `Assembler.AddBlockOutcome` | src/download/piece.rs:141-165 | exactly which blocks are accepted, and exactly which one panics |
| `Assembler.RedeliveryHarmlessIff` | src/download/piece.rs:139-165 | repeating a block changes nothing exactly when the bytes are the same; it never counts twice |
| `Assembler.AddSliceAgrees` | src/download/piece.rs:141-165 | the true bytes of a block are accepted and put where they belong |
| `Assembler.DeliveriesHold` | src/download/piece.rs:141-165 | after any accepted deliveries, short, long, overlapping or repeated: a block counts exactly when one began at it, and each byte is the last one delivered for its place, or zero |
| `Assembler.CompleteAndArrivedIff` | src/download/piece.rs:141-170 | complete exactly when every block was begun; every byte held has arrived exactly when the deliveries cover the piece |
| `Assembler.CutHolds` | src/download/piece.rs:141-165 | true bytes in stretches of any extent: each place holds the piece's byte if it was reached, else zero |
| `Assembler.RebuildsIff` | src/download/piece.rs:118-165 | true deliveries rebuild their piece, whatever the piece, exactly when they reach every byte |
| `Assembler.AnyOrderAssembly` | src/download/piece.rs:118-170 | whole blocks in any order, with repeats: complete exactly when each has come, and then the buffer is the piece |
| `Assembler.RedeliveryOverwrites` | src/download/piece.rs:139-165 | a repeated block that changes a byte already received |
| `Assembler.CompleteWithoutData` | src/download/piece.rs:147-170 | an input on which completion comes without the bytes |
| `Assembler.ArrivedButIncomplete` | src/download/piece.rs:158-163 | an input on which every byte comes without completion |
| `Assembler.PieceAssembler.constructor` | src/download/piece.rs:120-129 | the object starts as the fresh value |
| `Assembler.PieceAssembler.AddBlock` | src/download/piece.rs:141-165 | the object does exactly what the value does, on every input |
| `Assembler.PieceAssembler.IsComplete` | src/download/piece.rs:168-170 | true exactly when every flag is set |
| `Assembler.PieceAssembler.IntoBytes` | src/download/piece.rs:180-182 | hands out the buffer |
| `Bitfields.SetBitSetsOne` | src/download/bitfield.rs:76-90 | setting a bit affects that bit alone |
| `Bitfields.PaddingIsIgnored` | src/download/bitfield.rs:43-64 | two bitfields mean the same set exactly when they agree on the real bits |
| `Bitfields.SettingAddsOne` | src/download/bitfield.rs:81-91 | setting bit `index` of the packed bytes adds `index` to the set |
| `Bitfields.WireFormExists` | src/download/bitfield.rs:28-64 | every set of pieces has a packed form that reads back as the set |
| `Bitfields.MaskPicksPlace` | src/download/bitfield.rs:3-5 | mask `k` picks out the bit whose value is 2^(7 - k) |
| `Bitfields.WireMeansMarked` | src/download/bitfield.rs:28-64 | a bitfield is accepted exactly when it has one byte for every eight pieces begun; it then advertises piece `i` exactly when byte `i / 8`, divided by 2^(7 - i % 8), is odd |
| `Bitfields.Bitfield.constructor` | src/download/bitfield.rs:35-41 | starts empty |
| `Bitfields.Bitfield.Adopt` | src/download/bitfield.rs:55-63 | the cached count is the size of the set that the wire bytes mean |
| `Bitfields.Bitfield.FromBytes` | src/download/bitfield.rs:47-64 | accepted exactly when the length is right, whatever the padding; the set is the one the bytes mean |
| `Bitfields.Bitfield.Has` | src/download/bitfield.rs:72-78 | membership in the set, false out of range |
| `Bitfields.Bitfield.Set` | src/download/bitfield.rs:81-91 | adds the piece, ignores one out of range, and keeps the cached count exact |
| `Bitfields.Bitfield.Count` | src/download/bitfield.rs:96-98 | the cached count is the size of the set |
| `Bitfields.Bitfield.IsComplete` | src/download/bitfield.rs:101-103 | true exactly when the set is full |
| `Bitfields.Bitfield.ToMessageBytes` | src/download/bitfield.rs:111-113 | reading the wire bytes back gives the same set |
| `Tracking.RarestBelowIsRarest` | src/download/state.rs:113-125 | the loop finds the rarest candidate, the first among equals, and none only when there is none |
| `Tracking.RarestIsUnique` | src/download/state.rs:113-125 | the rule determines the choice |
| `Tracking.EndgameStrandsNothing` | src/download/state.rs:95-125 | when no exclusive reservation is possible, the endgame finds nothing exactly when the peer has nothing still needed |
| `Tracking.RemoveUndoesAdd` | src/download/state.rs:68-87 | withdrawing a bitfield undoes adding it |
| `Tracking.MarkHaveKeeps` | src/download/state.rs:144-147 | owning a piece keeps owned and claimed apart and loses nothing |
| `Tracking.ReserveKeeps` | src/download/state.rs:95-99 | reserving keeps owned and claimed apart and names a real piece |
| `Tracking.PieceTracker.constructor` | src/download/state.rs:29-38 | nothing owned, offered or claimed |
| `Tracking.PieceTracker.IsComplete` | src/download/state.rs:46-48 | true exactly when every piece is owned |
| `Tracking.PieceTracker.Has` | src/download/state.rs:56-58 | membership in the owned set |
| `Tracking.PieceTracker.AddAvailability` | src/download/state.rs:61-65 | adds one for a real piece and nothing otherwise |
| `Tracking.PieceTracker.AddBitfieldAvailability` | src/download/state.rs:68-74 | the loop adds one for each piece of the bitfield |
| `Tracking.PieceTracker.RemoveBitfieldAvailability` | src/download/state.rs:81-87 | the loop subtracts one for each piece, stopping at zero |
| `Tracking.PieceTracker.ReservePiece` | src/download/state.rs:95-99 | claims exactly the piece that the rule chooses |
| `Tracking.PieceTracker.ReservePieceEndgame` | src/download/state.rs:107-109 | the rule without claims; changes nothing |
| `Tracking.PieceTracker.RarestNeeded` | src/download/state.rs:113-125 | the loop over (availability, index) pairs meets the specification of the rarest candidate |
| `Tracking.PieceTracker.ReleasePiece` | src/download/state.rs:129-133 | takes the claim off, whoever set it |
| `Tracking.PieceTracker.Verify` | src/download/state.rs:136-141 | true exactly for a real piece with the expected hash |
| `Tracking.PieceTracker.MarkHave` | src/download/state.rs:144-147 | owned and no longer claimed |
| `Stats.SwarmStats.PeerConnected` | src/download/stats.rs:52-54 | registers a peer, choked and with nothing |
| `Stats.SwarmStats.PeerDisconnected` | src/download/stats.rs:57-59 | takes the peer out and no other |
| `Stats.SwarmStats.RecordBlock` | src/download/stats.rs:76-81 | the total counts every block, also of a peer no longer registered, modulo 2^64 |
| `Wire.DecodeInvertsEncode` | src/peer/message.rs:102-172 | decoding a frame followed by anything gives the message and leaves exactly what followed |
| `Wire.EncodeInvertsDecode` | src/peer/message.rs:223-256 | a decoded message was buffered in its one and only encoding |
| `Wire.RoundTripIff` | src/peer/message.rs:35-172 | the round trip holds exactly within the length limit |
| `Wire.CutFrameWaits` | src/peer/message.rs:103-125 | a frame cut short yields nothing and stays buffered |
| `Wire.MoreBytesAgree` | src/peer/message.rs:102-172 | more bytes never change what was already decided |
| `Wire.PutGetU32` | src/peer/message.rs:107-107 | a big-endian number is written back as it was read |
| `Wire.BlockInfoRoundTrip` | src/peer/message.rs:212-272 | a block triple is read back as it was written |
| `Wire.BodyInvertsParse` | src/peer/message.rs:130-170 | an accepted payload is the only body of its message |
| `Wire.SimpleFrames` | src/peer/message.rs:223-262 | the bytes of the five frames without payload |
| `Wire.HaveFrame` | src/peer/message.rs:223-235 | the bytes of a `have`: length, id, and the index with its most significant byte first |
| `Wire.BitfieldFrame` | src/peer/message.rs:223-240 | the bytes of a bitfield message, its length taken modulo 2^32 |
| `Wire.TripleFrames` | src/peer/message.rs:223-272 | the bytes of `request` and `cancel`: index, begin and length in this order, most significant byte first |
| `Wire.PieceFrame` | src/peer/message.rs:223-272 | the bytes of a block: index, begin, data; the length modulo 2^32 |
| `Wire.PortFrame` | src/peer/message.rs:223-256 | the bytes of a port message |
| `Wire.DecodeOutcome` | src/peer/message.rs:102-172 | for every buffer: it waits exactly while the length or a frame of at most 1048576 bytes is incomplete, fails exactly on a longer length or on a frame that is no message's, and else gives the one message that the frame encodes |
| `Codec.PeerCodec.Decode` | src/peer/message.rs:102-172 | the decoder's result and remaining buffer are those of the function, on every buffer |
| `Codec.PeerCodec.ReadBody` | src/peer/message.rs:133-170 | each id reads its payload or reports the wrong length |
| `Codec.PeerCodec.ReadBlockInfo` | src/peer/message.rs:212-218 | reads the triple in order |
| `Codec.PeerCodec.Encode` | src/peer/message.rs:223-256 | appends exactly the frame of the message |
| `Codec.PeerCodec.PutPiece` | src/peer/message.rs:242-248 | appends the frame of a block |
| `Codec.PeerCodec.PutSimple` | src/peer/message.rs:260-263 | appends the frame of a message without payload |
| `Codec.PeerCodec.PutTriple` | src/peer/message.rs:266-272 | appends the frame of a request or a cancel |
| `Framing.ChunkingIsInvisible` | src/peer/message.rs:102-172 | for every byte stream, valid or not, and every way to cut it, the outcome is that of the uncut stream |
| `Framing.NoMessageEarly` | src/peer/message.rs:120-125 | from any part of an encoded sequence exactly the whole frames are read |
| `Framing.FragmentationIndependence` | src/peer/message.rs:102-172 | a sequence of messages cut anywhere is read back whole with nothing left over |
| `Framing.PartialArrival` | src/peer/message.rs:102-172 | while bytes are still arriving, what has been read is the whole frames so far |
| `Framing.EncodingIsInjective` | src/peer/message.rs:223-256 | different message sequences have different encodings |
| `Framing.DrainBuffer` | src/peer/message.rs:102-172 | the decoder called on its buffer until it wants more reads what the specification reads, and leaves the same residue |
| `Framing.ReadChunks` | src/peer/message.rs:102-172 | the decoder fed chunk by chunk, for any chunks, reads what it would read from the uncut stream |
| `Bencode.SkipValue` | src/metainfo.rs:247-276 | the loop and its recursion end on every input, advance within the buffer and compute the specified end |
| `Bencode.ExtractRawInfo` | src/metainfo.rs:204-224 | the loop over the entries computes the specified slice or error |
| `Bencode.ReadByteString` | src/metainfo.rs:228-244 | success advances and stays within the buffer |
| `Bencode.ReadEncoded` | src/metainfo.rs:228-244 | an encoded byte string is read with its content and its end |
| `Bencode.SkipEncoded` | src/metainfo.rs:247-276 | over every encoded value, wherever it lies, the walk stops exactly at its end |
| `Bencode.SkipEncodedItems` | src/metainfo.rs:259-269 | the same for the items of a list |
| `Bencode.SkipEncodedEntries` | src/metainfo.rs:259-269 | the same for the keys and values of a dictionary |
| `Bencode.InfoFromEncoded` | src/metainfo.rs:210-223 | from any entry on, the first `info` value is the one returned |
| `Bencode.RawInfoIsFaithful` | src/metainfo.rs:191-224 | from any encoded dictionary and any suffix exactly the original bytes of the first `info` value are returned, and an error exactly if there is none |
| `Bencode.EncodingIsPrefixFree` | src/metainfo.rs:246-276 | no encoded value is the beginning of another |
| `Grammar.DigitsAre` | src/metainfo.rs:228-244 | which decimal digit stands at which place of a length, and how many there are |
| `Grammar.ParseUsizeIff` | src/metainfo.rs:234-237 | the length parser reads exactly the numbers below 2^64, behind any zeros and at most one plus |
| `Grammar.ReadSpelled` | src/metainfo.rs:228-244 | a byte string is read wherever one of these lengths, a colon and that many bytes lie |
| `Grammar.SpelledIfRead` | src/metainfo.rs:228-244 | and nowhere else |
| `Grammar.SkipSpelled` | src/metainfo.rs:247-276 | the walk steps over every value of the grammar |
| `Grammar.SpelledIfSkipped` | src/metainfo.rs:247-276 | and over nothing else |
| `Grammar.SkipIff` | src/metainfo.rs:247-276 | for every buffer, malformed or not: the walk ends at `j` exactly when a value of the grammar lies from `i` to `j` |
| `Grammar.RawInfoIff` | src/metainfo.rs:204-224 | for every buffer: the bytes hashed are those of the first value with the key `info` in the dictionary it begins with, whatever follows; an error exactly if there is none |
| `Swarm.ConfigureIsWellFormed` | src/download/mod.rs:87-100 | the geometry and the tracker agree exactly when the number of pieces fits in 32 bits |
| `Swarm.ConfigureIs` | src/download/mod.rs:87-100 | a torrent is accepted exactly when its geometry and its hashes are; piece `i` verifies exactly against the twenty bytes at `20 * i` |
| `Swarm.PieceCountWraps` | src/download/piece.rs:40-43 | a torrent accepted with one piece in the geometry and 2^32 + 1 in the tracker |
| `Invariants.EvolvesKeepsOthers` | src/download/mod.rs:172-190 | what one session's step does to the shared state leaves every other session's invariant intact |
| `Invariants.ReserveKeeps` | src/download/mod.rs:283-305 | the reservation section keeps all invariants, and a session left without a piece has nothing it could do |
| `Invariants.SendKeeps` | src/download/mod.rs:308-319 | a request keeps the window |
| `Invariants.BlockKeeps` | src/download/mod.rs:412-455 | a block, whatever it is, keeps all invariants |
| `Invariants.MessageKeeps` | src/download/mod.rs:347-398 | so does any message |
| `Invariants.ControlKeeps` | src/download/mod.rs:258-280 | so do pause, resume and cancel |
| `Invariants.StepKeeps` | src/download/mod.rs:255-407 | every step keeps the invariants of its session and of the shared state, and does to the others only what they tolerate |
| `Runs.StepMovesAvailability` | src/download/mod.rs:363-406 | a step changes the availability of a piece by exactly what it changes in its own peer's contribution |
| `Runs.StepMovesClaim` | src/download/mod.rs:259-365 | before the endgame a step takes and gives back claims exactly as its session takes up and gives back pieces; after it a claim outlives a step only if some session keeps the piece |
| `Runs.ClaimAfterStep` | src/download/mod.rs:259-455 | after any step, endgame or not, a piece is claimed exactly when the step reserved it exclusively, or it was claimed and the step's session did not give it up by time-out, choke, pause, cancel, close, bad hash or success |
| `Runs.StepMovesPieces` | src/download/mod.rs:434-454 | a step makes no copy of a piece and loses none between the peer, the channel and the owned set |
| `Runs.InitHolds` | src/download/mod.rs:85-101 | a new coordinator satisfies the invariant |
| `Runs.ActKeeps` | src/download/mod.rs:170-407 | every action of the swarm keeps the invariant, and progress is never undone |
| `Runs.RunHolds` | src/download/mod.rs:170-407 | the invariant holds in every state of every run |
| `Runs.RunEvolves` | src/download/mod.rs:170-407 | between any two states of a run pieces, announcements and emissions only grow |
| `Theorems.AvailabilityIsLiveCount` | src/download/mod.rs:363-406 | in every reachable state the availability lies between the number of live peers offering the piece and the number of peers, and equals the former exactly if no task that offered it has panicked |
| `Theorems.AvailabilityFits` | src/download/state.rs:61-74 | the counters never exceed the number of peers |
| `Theorems.NothingSaturates` | src/download/state.rs:76-87 | undoing a contribution never meets a zero |
| `Theorems.ReservationIsRarest` | src/download/mod.rs:283-305 | exclusively or in the endgame, a free session takes up a needed piece of its peer that no more live peers offer than any other it could have taken |
| `Theorems.ClaimDiscipline` | src/download/mod.rs:259-365 | no owned piece is claimed; in every reachable state a claimed piece is kept by some session; until the endgame the claimed pieces are exactly those, and by one session only |
| `Theorems.ClaimHistory` | src/download/mod.rs:259-455 | at any point of any run, endgame included, a piece is claimed exactly when it was reserved exclusively and no session has given it up since |
| `Scenarios.SharedClaimIsLost` | src/download/mod.rs:284-336 | a run to a piece that is worked on and not claimed |
| `Scenarios.FailureLeaksClaim` | src/download/mod.rs:284-407 | a run to a piece that is claimed and worked on by nobody, and on to a state in which the endgame has taken that claim off |
| `Theorems.NoUsefulSessionIdles` | src/download/mod.rs:283-327 | in every reachable state a session that waits unchoked without a piece has a peer with nothing still needed |
| `Theorems.RequestWindow` | src/download/mod.rs:307-319 | holding a piece: unchoked, incomplete, the counter `in_flight` at most five and no more than requested; the requests are the first blocks of the piece, each once, each inside it |
| `Pipeline.InFlightIsExact` | src/download/mod.rs:249-428 | holding a piece, `in_flight` is the requests made since the reservation less the blocks taken in since, or zero if more were taken in |
| `Pipeline.InFlightCountsRequestsIff` | src/download/mod.rs:249-428 | it is the number of unanswered requests, less the blocks that came before being requested, exactly when no block was repeated |
| `Pipeline.StallsIff` | src/download/mod.rs:321-336 | a session waiting with a piece can time out exactly when it took in fewer blocks than it requested; else nothing but its peer moves it |
| `History.WaitsWithFullWindow` | src/download/mod.rs:307-319 | a session waits with a piece only with five requests in flight or every block requested |
| `History.PossibleAtWait` | src/download/mod.rs:321-345 | what a waiting session can meet, and exactly when: messages, the end of the connection, a control change, the announcement, the time-out |
| `Scenarios.RepeatedBlockStalls` | src/download/mod.rs:321-432 | a run in which a block is outstanding, a repeated one has brought the counter to zero, and the time-out is not possible |
| `Theorems.EmittedExactlyOnce` | src/download/mod.rs:434-454 | sent, lost and pending pieces together are exactly the owned ones; no index occurs twice within them or between them; all have the right length and hash |
| `Theorems.ReturnedRunSentEverything` | src/download/mod.rs:166-195 | when `run` has returned and the receiver stayed, the channel carried exactly the owned pieces |
| `Theorems.DoneIsSound` | src/download/mod.rs:292-394 | `done` means complete, and both last |
| `Theorems.IncompleteReturnHasCause` | src/download/mod.rs:170-195 | an uncancelled run that returned incomplete lost every session to a refusal, a close, an error or the panic |
| `Theorems.CompletionIsAnnounced` | src/download/mod.rs:292-394 | completion has been announced or some session is about to; a returned run is announced exactly if complete |
| `Returning.NoLostWakeUp` | src/download/mod.rs:258-280 | in every reachable state a session that sleeps on the latest control state was told to by it, and one that works was told to work |
| `Returning.DoneReleasesSessions` | src/download/mod.rs:255-407 | after the announcement every session that no pause keeps can take its next step without its peer, each bringing it closer to its end |
| `Returning.ReleasedRunReturns` | src/download/mod.rs:166-195 | these steps alone bring the whole run to its return |
| `Returning.PausedRunNeverReturns` | src/download/mod.rs:166-278 | while control rests, no continuation of a run with a session kept by the pause returns, complete or not |
| `Returning.ReturnsIff` | src/download/mod.rs:166-195 | from any reachable announced state the run can return without a control change exactly when no session is kept by a pause |
| `Returning.CancelReleases` | src/download/mod.rs:119-265 | once cancelled, every session always has a step of its own, each bringing it closer to its end |
| `Returning.CancelReturns` | src/download/mod.rs:119-195 | from any reachable cancelled state the run can return, without a control change and without any peer |
| `History.CancelCallReturns` | src/download/mod.rs:119-195 | from any reachable state in which the coordinator exists, the call to cancel brings the run to where it can return |
| `History.ChokedIsLastWord` | src/download/mod.rs:347-362 | in every state of every run, a session takes its peer to be willing exactly when it was unchoked and not choked since |
| `History.ActsOnlyWhenUnchoked` | src/download/mod.rs:282-319 | no piece is taken up and no request sent but to a peer whose last word was to unchoke |
| `History.PeerHasIsWhatWasSaid` | src/download/mod.rs:363-384 | what a session takes its peer to have is what the messages it received have said |
| `History.SharedIsHistory` | src/download/mod.rs:110-122 | in every state of every run: the control is what was last asked for, its version the number of such calls; completion is announced once a session did so; the wire total is the sum of the blocks received |
| `History.SeenIsLastLook` | src/download/mod.rs:258-280 | in every state of every run a session has seen exactly the control changes made before it last looked |
| `History.LeavesIff` | src/download/mod.rs:255-407 | exactly which events make a session leave its loop, and for which reason; a bad piece, a foreign block and a time-out are none |
| `History.WholePieceOutcome` | src/download/mod.rs:434-454 | a whole piece is dropped if owned, owned and sent on if its hash is right, and given back if it is wrong, the session going on |
| `Trace.RoundsInOrder` | src/download/mod.rs:255-338 | in every run: a session looks for a piece once, sends its requests and waits, in this order and with nothing in between, only in a round that began by reading a control that said to run |
| `Trace.ControlIsReadBetween` | src/download/mod.rs:255-280 | between any two messages the session reads such a control |
| `Trace.PiecesAreGathered` | src/download/mod.rs:412-449 | in every state of every run: a piece in work is made of exactly the blocks taken in since it was taken up, in their order; so is a piece on its way to the channel, which is whole and has its hash |
| `Trace.EmittedBytes` | src/download/mod.rs:412-449 | each byte of an emitted piece is the last one received for its place, and every block of it was begun |
| `Theorems.PanicHasOneCause` | src/download/piece.rs:158-163 | a step ends in a panic exactly when an empty block comes at the end of a current piece of whole blocks |
| `Scenarios.PanicDistortsAvailability` | src/download/piece.rs:158-163 | a run to an availability of one with no live peer |
| `Ledger.CompleteIsWhole` | src/download/piece.rs:168-170 | a complete assembler accounts for its whole piece |
| `Ledger.CreditCoveredIff` | src/download/piece.rs:141-165 | an accepted block is credited with no more bytes than it carries exactly when it repeats a block or is not short |
| `Ledger.ProgressIsExact` | src/download/mod.rs:140-164 | `bytes_done` never exceeds `total_bytes` and reaches it exactly on completion |
| `Ledger.RequestedLengthIsNotShort` | src/download/piece.rs:96-105 | a block of the length requested is not short |
| `Ledger.StepGains` | src/download/mod.rs:385-388 | every step moves bytes received against bytes accounted for by exactly its gain |
| `Ledger.StepPaysIff` | src/download/mod.rs:385-388 | a step accounts for no bytes that were not received exactly when it does not credit a short block: one accepted, new and short, whose piece stays incomplete or is kept |
| `Ledger.FullBlocksPay` | src/download/piece.rs:96-105 | blocks of at least the requested length are never credited short |
| `Ledger.RunAccount` | src/download/mod.rs:140-164 | the exact account of any run: received bytes cover owned and assembled ones, and the owned ones alone, exactly when its gains sum to enough |
| `Ledger.BytesAreConserved` | src/download/mod.rs:140-164 | if no step credits a short block, in every state of the run the bytes received cover the owned pieces and all that sits in assemblers |
| `Ledger.FullRunIsConserved` | src/download/mod.rs:140-164 | so they do, and `wire_bytes` is at least `bytes_done`, if every block is as long as a request for it would name |
| `Scenarios.ShortBlockIsNotPaid` | src/download/stats.rs:132-135 | for every hash, a run that ends with one byte done and none received |
| `Sessions.Coordinator.constructor` | src/download/mod.rs:87-101 | the initial shared state |
| `Sessions.Coordinator.SetControl` | src/download/mod.rs:110-122 | pause, resume and cancel publish a new control state; on the values this is the action of the protocol |
| `Sessions.Coordinator.Snapshot` | src/download/mod.rs:140-164 | pieces and bytes done are those of the owned set, bounded by the total; complete exactly when all bytes, and all pieces, are done |
| `Sessions.Coordinator.CountOwned` | src/download/mod.rs:144-151 | the loop counts the owned pieces and their lengths |
| `Sessions.PeerSession.constructor` | src/download/mod.rs:239-249 | choked, nothing known, nothing held |
| `Sessions.PeerSession.Connected` | src/download/mod.rs:214-215 | the peer is registered and the loop begins |
| `Sessions.PeerSession.ReadControl` | src/download/mod.rs:258-280 | does to the objects what the step does to their values |
| `Sessions.PeerSession.ChoosePiece` | src/download/mod.rs:284-299 | one critical section: exclusive reservation, else completeness, else endgame |
| `Sessions.PeerSession.Reserve` | src/download/mod.rs:282-305 | the reservation step, with its fresh assembler |
| `Sessions.PeerSession.FillPipeline` | src/download/mod.rs:307-319 | the loop sends the next blocks in order until five are outstanding or none is left, and exactly those |
| `Sessions.PeerSession.HandleBlock` | src/download/mod.rs:412-455 | the whole of `handle_block`, up to the send |
| `Sessions.PeerSession.FinishPiece` | src/download/mod.rs:434-454 | kept, given back or found superfluous |
| `Sessions.PeerSession.HandleHave` | src/download/mod.rs:363-373 | a newly learned piece is counted once |
| `Sessions.PeerSession.HandleBitfield` | src/download/mod.rs:374-384 | the old contribution is replaced by the new one, or the session fails |
| `Sessions.PeerSession.HandleChoke` | src/download/mod.rs:348-358 | the piece is given back |
| `Sessions.PeerSession.HandleMessage` | src/download/mod.rs:347-398 | any message |
| `Sessions.PeerSession.Emit` | src/download/mod.rs:447-449 | the send after the lock is dropped |
| `Sessions.PeerSession.TimeOut` | src/download/mod.rs:329-336 | the silent peer's piece is given back |
| `Sessions.PeerSession.Close` | src/download/mod.rs:339-345 | the closed peer's piece is given back |
| `Sessions.PeerSession.Withdraw` | src/download/mod.rs:404-407 | the peer's contribution is taken out and the peer unregistered |
| `Sessions.PeerSession.Perform` | src/download/mod.rs:255-407 | every step of a session on the objects is that step of the protocol on their values |
| `Disk.BuildFileMap` | src/disk.rs:45-61 | succeeds exactly when the lengths sum to less than 2^64; offsets are then the exact prefix sums |
| `Disk.MappedTotalIsDeclared` | src/metainfo.rs:147-152 | the unchecked total is the true one exactly when a file map exists |
| `Disk.DeclaredTotalWraps` | src/metainfo.rs:147-152 | files of 2^64 bytes whose declared total is zero |
| `Disk.MapRegion` | src/disk.rs:68-87 | the ops run through the source in order without gap or overlap up to the end of the files, each inside its file at the right place |
| `Disk.ConcatWrite` | src/disk.rs:138-145 | a write into one file is a write into the stream |
| `Disk.WritesJoin` | src/disk.rs:138-145 | consecutive writes are one write |
| `Disk.Storage.constructor` | src/disk.rs:100-125 | every file has its full length |
| `Disk.Storage.WritePiece` | src/disk.rs:133-156 | puts the piece at its place in the stream, nothing else; succeeds exactly when the files reach to its end |
| `Disk.Storage.Assemble` | src/disk.rs:169-177 | writes the pieces in order up to the first that does not fit |
| `Disk.SizedPiecesFit` | src/disk.rs:147-154 | for pieces of the right size the error cannot occur |
| `Delivery.OverwritePiece` | src/disk.rs:133-156 | writing a piece sets its own range and no other piece's |
| `Delivery.WrittenHolds` | src/disk.rs:173-175 | each piece range holds what was last written for it, or what was there |
| `Delivery.SameByPieces` | src/download/piece.rs:74-88 | a stream is determined by its pieces |
| `Delivery.OrderDoesNotMatter` | src/disk.rs:133-177 | neither the order of the writes nor repeats matter |
| `Delivery.WritesRebuildContent` | src/disk.rs:68-156 | every byte whose piece was written is the content's, every other byte is unchanged |
| `Delivery.DownloadVerifies` | src/download/mod.rs:166-195 | for every interleaving and every message stream: returned, complete and drained, every piece range of the files has its expected hash |
| `Delivery.DownloadIsContent` | src/disk.rs:133-177 | the files hold the content that the torrent describes exactly when no piece this run emitted collides with it |
| `Delivery.AssembleDownload` | src/disk.rs:167-177 | the same through the storage object: every piece range verifies, file lengths are right, and the content is there exactly when nothing collided |
| `Delivery.FileIsSlice` | src/disk.rs:24-31 | each file is its slice of the stream |
| `Seeder.SomethingToTakeUp` | src/download/mod.rs:283-305 | facing a peer with everything, a free session takes up a needed piece or finds the torrent complete |
| `Seeder.SomethingIsOutstanding` | src/download/mod.rs:307-327 | a session that waits unchoked has a request outstanding |
| `Seeder.BlockStored` | src/download/mod.rs:412-432 | the next answer stores the first missing block |
| `Seeder.WholeIsTrue` | src/download/mod.rs:434-444 | a whole piece is the true piece and passes verification |
| `Seeder.OthersDoNotDelay` | src/download/state.rs:144-147 | what other sessions own never takes a session further from its end |
| `Seeder.IntroductionTurn` | src/download/mod.rs:363-384 | each introduction teaches the session what it says and nothing else |
| `Seeder.BlockTurn` | src/download/mod.rs:412-455 | a true block keeps requests = received + unanswered and `in_flight` = unanswered, also when another session has completed the piece |
| `Greetings.BitfieldFitsIff` | src/peer/message.rs:32-118 | a bitfield passes the wire exactly up to 8388600 pieces |
| `Greetings.HavesGreet` | src/peer/message.rs:32-118 | any number of pieces can be advertised by messages that pass |
| `Greetings.HeardIff` | src/peer/message.rs:102-172 | a message is heard as what it is or ends the stream, and the limit decides |
| `Greetings.ReadUpToTooLong` | src/peer/message.rs:102-172 | however a stream is cut, all messages before the first beyond the limit are read, and that one ends it |
| `Completion.SeatTurn` | src/download/mod.rs:255-407 | every turn of the session with the seeder keeps it on track and lowers the measure |
| `Completion.OtherActKeeps` | src/download/mod.rs:255-407 | no action of another session disturbs it or raises the measure |
| `Completion.PlayIsRun` | src/download/mod.rs:170-407 | a play is a run of the swarm |
| `Completion.SeederSuffices` | src/download/mod.rs:170-407 | in any company and any interleaving: the session takes a bounded number of turns, is never stuck, and if the greeting passes the wire is gone only when the torrent is complete and announced |
| `Completion.SeederCompletesSwarm` | src/download/mod.rs:170-407 | from wherever the others have brought the swarm, its own turns complete the torrent |
| `Alone.SoloOutcome` | src/download/mod.rs:255-407 | how every play of one session ends: delivered exactly if the greeting passes the wire, else failed with nothing owned |
| `Alone.SeederCompletesIff` | src/download/mod.rs:255-407 | alone with a faithful seeder the loop terminates; it ends with every piece emitted once and the files holding the content exactly when the greeting passes the wire |
| `Alone.OnTheWire` | src/peer/message.rs:102-172 | cut into any chunks, what the seeder says is read as exactly what the session receives |
| `Alone.CutOff` | src/peer/message.rs:114-118 | where the session fails to receive, the decoder fails on the same message, however cut and whatever follows |
| `Alone.SeederExists` | src/download/mod.rs:255-407 | every content has a faithful seeder whose greeting passes the wire, for any company |
| `Alone.BitfieldSeeder` | src/download/mod.rs:374-384 | one that greets with its bitfield passes exactly up to 8388600 pieces |
| `Alone.LargeTorrentFails` | src/peer/message.rs:32-118 | with one piece more such a session ends by an error, nothing owned |

## Left out

* The runtime: tasks, locks and channels are the interleaving itself. Clocks are
  not modelled; a time-out is possible whenever its guard holds. Sending on a
  bounded channel may wait; the wait is the time between two steps.
* A control change is one that took effect: `control.send` has no effect while
  no task listens, and such a call is not an action of the model.
* Setting a piece in `peer_has` and counting it are one step
  (`src/download/mod.rs:369-370`), because no other session reads the field.
* One `run` per coordinator, awaited to its end; a second call, and dropping the
  future while tasks live, are not modelled.
* SHA-1 is a parameter, of which nothing is assumed. That the pieces of a run do not
  collide with the content is the condition found in `Delivery.DownloadIsContent`.
* All sessions of a run are there from its start, and each learns of the
  announcement. In the program a task subscribes when `run` spawns it
  (`src/download/mod.rs:172-183`); one spawned after the announcement would not see
  it, and with a silent choking peer would not end.
* Files are byte sequences of fixed length; paths, directory creation, existing
  contents and I/O errors are not modelled. The stream theorems hold for any
  previous contents.
* Arithmetic that would panic only in a debug build is modelled as the release
  build does it, wrapping where it can wrap.
* The objects of one session and the shared objects are proved step by step;
  several sessions interleaved over one heap are composed on values, in `Swarm.Act`,
  not in a single method.
* Connecting, the handshake and `Interested` are one step that succeeds or fails.
* Text of error messages, and which of several errors a malformed buffer reports
  beyond the branch taken.
* Parsing and re-serialising metainfo with serde, path validation, trackers, peer
  discovery, the GUI and the per-peer display statistics with their sorting.
* The recursion depth of `skip_value` on deeply nested input.
- Wire.RoundTripIff: says nothing of `BytesMut::reserve`, which only affects memory.
- Bencode.SkipEncoded: is about encoded values; the walk also accepts what no encoding uses, of which `Grammar.SkipIff` is the exact account.
- Ledger.BytesAreConserved: assumes that no step credits a short block; `Ledger.RunAccount` is the statement for all runs.
- Returning.ReturnsIff: the steps that reach the return give up connections still being made; so do those of `Returning.CancelReturns`.
- Theorems.IncompleteReturnHasCause: assumes the coordinator exists, as it does while `run` is awaited.
- Completion.SeederSuffices: the download is not paused or cancelled meanwhile, and the session's connection neither times out nor closes; the time-out and the close of every other session are allowed.
