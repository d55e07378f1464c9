# Verification of mittorrent

mittorrent is a peer-to-peer file sharing system. Its trackers form a Chord ring (SIGCOMM 2001)
over 256-bit keys; each keeps the torrent files whose SHA-256 keys fall into its arc of the ring,
and clients fetch a file block by block from the peers that its torrent file lists. This project
models that logic in Dafny 4.11 and proves what the design relies on. `dafny verify dfyconfig.toml`
verifies all of it.

How it is laid out, from the bottom up:

- `Circle`, `KeyBytes`, `KeyText`: keys as numbers on a circle, as the 32 bytes the program compares and adds,
  and as hexadecimal text.
- `Sha256`, `Sha256Example`: a pure hash of the padded message, the mutable context that computes it piece by
  piece, and the example that the standard works out.
- `Ring`: the whole network as a finite map from ids to what each node knows, with the steps join,
  stabilize, notify and finger repair. On it: `RingInvariant` (what every run keeps), `RingRuns`
  (reachability), `RingStale` (answers that arrive late), `RingConvergence` (a ranking function, and
  that the quiet rings are the ideal ones), `RingLookup` (who finds what), `RingHops` (how fast),
  `RingTurns` (the periodic turn of a tracker, while some nodes may not answer), `RingRepair` (what the
  turns make of a departure), `RingFingers` (what they make of the finger tables) and `RingEffects` (what
  each operation changes, field by field).
- `Dht`: the same operations on heap objects with finger arrays, each proved to do what `Ring` says.
- `SortedSeq`, `LinkedList`: the sorted lists as sequences and as linked cells.
- `TorrentFile`: the serialized form of torrent files and the stream in which they are moved.
- `Ownership`, `Placement`, `Upkeep`: where the files live, and the whole periodic turn with its
  redistribution. `Blocking`, `HalfStable`, `Arrival`, `Departure`: which turns run to their end. `Swarm`:
  whole runs of uploads, downloads, joins, departures and turns. `Tracker` has the handlers and loops on
  the heap.
- `Blocks`, `DownloadRuns`, `DownloadEnds`, `Download`, `Downloader`, `Serving`: assembling a file from blocks,
  all interleavings of two workers and a user, how the loop of a worker ends, the methods that make up the
  steps, and peers that serve other bytes.
- `Bootstrap`: the server that hands newcomers a first peer.
- `Commands`, `CmdParser`: the meaning of a command line and the tokenizer that works in place.

A heap class is proved against a pure specification: its methods' postconditions equate the new
abstract value with a specification function of the old one, and the theorems are about those functions. What
a single such function does is stated once more without it: field by field for the ring (`RingEffects`), as
membership for lists, byte by byte for messages and files.

Main results:

- In runs with joins and no failures a ring never turns loopy, never loses reachability and converges:
  every effective stabilization lowers a sum of distances, counted in members and so at most quadratic in
  their number, and the states without effective stabilizations are exactly the ideal rings. This holds also
  when a stabilizing node acts on a stale answer, and for whole periodic turns with any finger repairs.
- When one of three or more nodes leaves an ideal ring, the turns of the others, in any order and with any
  repairs, make the ring ideal again, with no pointer left to the one that left, as long as they run to their
  end and its predecessor has one.
- Lookups end in every well-formed ring, also in one that changes between their requests; on an ideal
  ring they agree and return the unique owner, and with correct fingers they take at most 256 hops.
  Repairs in any order that cover all entries make the fingers correct; so do the repairs of whole turns.
- Across any run of uploads, downloads, joins, departures and periodic turns, a search from any member gives
  what one global table would give. Joins and departures go on with turns, each with its check, stabilization,
  repairs and redistribution, until the ring is ideal and everyone has had one more; none of these turns may
  wait for itself or fail. When that happens is characterized exactly for joins (`Arrival.JoinBlocksIff`);
  on an ideal ring it never does (`Upkeep.IdealTurnsRun`).
- After a download of a listed file every later search, from anywhere, names the downloader among its peers.
- The streaming hash is SHA-256 of the padded message for every chunking. The padding is the one string of its
  form, and the hash of the standard's example is the one that the standard prints.
- The bootstrap server hands out its trackers in turn: none twice before everyone who stays once.
- Under every interleaving a download has at most one worker, never loses a block, and is complete when
  it is done. Left to one worker it ends done exactly when every block arrives.

Where the code does not do what its documentation or its purpose suggests, the model follows the code:

- `key_add` (lib/key.c:98-109, documented in lib/key.h:43-44) drops a carry into a byte that holds 0xFF.
  `KeyBytes.KeyAddExact` says exactly when the sum is right and by how much it is wrong otherwise. Joining
  runs into it: what `key_add_int` puts into the step of the first finger is 2^224 instead of 1, and adding
  it goes wrong exactly for ids whose bytes 2 and 3 are both 0xFF (`KeyBytes.FirstFingerExact`). Start keys
  of fingers are therefore arbitrary keys in all ring results but those of `RingHops` and `RingFingers`.
- A node asked for the successor of its own id answers with its strict successor (lib/dht.c:18-22), which
  is not the owner of that id; `RingLookup.FindNextOwnsUnlessSelf`. File ids are assumed to differ from
  node ids.
- Of two trackers the one that stays when the other leaves finds no successor and stops, unless one of its
  fingers names itself; then it has no predecessor, and its stabilization fails from then on
  (lib/tracker.c:842-902); `RingRepair.OneOfTwo`.
- A turn can make a tracker send an UPLOAD to itself while it holds its own lock (lib/tracker.c:836 and 935,
  lib/tracker.c:477). After a join into an ideal ring this happens exactly when, before the first turn of the
  newcomer's predecessor, the newcomer has a turn in which its unset predecessor field makes a file it was
  given look foreign, and then its successor has one (`Arrival.JoinBlocksIff`, for all turns and repairs;
  `Swarm.JoinCanBlock` is a run). In general a redistribution never blocks where no member takes the tracker for
  its successor with its predecessor in between (`Blocking.NeverBlocked`); and where fingers name members that
  the successors lead to, a file blocks exactly when its id lies in a part of the ring so skipped by a member
  that the successors lead to (`Blocking.BlockedIff`). `HalfStable.RedistributionCanBlock` is a run with an
  upload in the meantime.
- After a departure a turn whose lookup or upload comes to the node that left fails, and keeps the lock
  (lib/tracker.c:904-913, 925-940). A turn of the leaver's successor before one of its predecessor fails
  whenever it was handed a file (`Departure.LeaveBlocksIff`). Turns of the predecessor first, without
  repairs that come to the node that left, always work (`Departure.GapCloses`, `Swarm.LeaveIsPossible`). A
  repair before that turn can write the node that left back into a finger; one more turn of its owner
  clears it.
- A tracker overwrites the path inside a torrent file before it lists it (lib/tracker.c:479, lib/file.c:53-60),
  so that the file found differs there from the one uploaded. A path that would not fit is left as it is, and
  the handler goes on, because it only looks for -1 (lib/file.c:47-51); `TorrentFile.SavedPathIsWritten`.
- The size of a download is kept in 32 bits (lib/local_file.h:30), so a file of 2^32 bytes or more
  is declared done although its end is missing; `Blocks.CompleteIffFits`. `DownloadRuns.DoneButWrong` is a
  run for the sizes that are multiples of 2^32.
- A paused download that is added again before its worker has left gets a second worker at the next claim
  whenever it is the last idle one (`DownloadRuns.EarlyRequestDoubles`), and can end done and incomplete
  (`DownloadRuns.DoneButIncomplete`, a run from the start for any file of two blocks). The other download
  results assume that this does not happen.
- A tracker that is still downloading a file is listed as its peer, claims all blocks and serves what it has on
  disk (lib/tracker.c:262-270, 987-1002). A download to which every block arrives is right exactly when each of
  them is; served by one such peer it ends done with that peer's bytes (`Serving.RightIffServedRight`,
  `Serving.ServedByUnfinished`).
- A peer that answers with an empty table is asked again at once (lib/download.c:85-88), under the locks of
  the downloader: the request to download ends exactly when as many other answers as listed peers arrive;
  `Download.Download.InitPeers`, `Download.EmptyForEver`.
- A repeated flag is refused exactly when the tokenizer compares the two: when the first one has its value or
  is not next to the second, and the second is among the first ten flags, or the eleventh behind a tenth
  without a value. All other command lines are accepted, with the first ten flags; `Commands.OutcomeOfAny`.

## Model

| member | source | states |
|---|---|---|
| `KeyBytes.KeyCmp` | lib/key.c:72-78 | the byte comparison is the order of the numbers that the keys spell, decided by the first byte that differs, and says equal only for equal bytes |
| `KeyBytes.KeyIn` | lib/key.c:80-96 | for all keys and all four flag pairs, min = max and wrap-around included, membership is that in the open arc or being an end that is asked for; for the flags (0, 1) it is membership in (min, max] |
| `Circle.ArcsPartition` | lib/key.c:80-96 | for a different from b every key lies in exactly one of the arcs (a, b] and (b, a] |
| `Circle.MetOnTheWay` | lib/key.c:80-96 | the arc between two keys consists of the keys met on the way, one step of the circle after the other |
| `KeyBytes.KeyAdd` | lib/key.c:98-109 | the byte loop leaves in the first key exactly the bytes that the held and dropped carries determine, also when both operands are the same array |
| `KeyBytes.KeyAddExact` | lib/key.c:98-109 | the result is the sum modulo 2^256 exactly when no carry meets 0xFF in bytes 1 to 31; otherwise it falls short by exactly the worth of the carries dropped there |
| `KeyBytes.KeyAddInt` | lib/key.c:111-122 | adds to the first four bytes the last bytes of the number shifted by 3, 2, 1 and 0 bits, with the same carries, and leaves the rest of the key alone |
| `KeyBytes.FirstStepIsAdded` | lib/dht.c:231-233 | the zero key plus the number 1 has its 1 in byte 3 |
| `KeyBytes.FirstFingerExact` | lib/dht.c:231-240 | adding that key to an id adds 2^224 modulo 2^256 exactly when bytes 2 and 3 of the id are not both 0xFF; when they are, the carry is dropped at byte 2 |
| `KeyText.KeyFromText` | lib/key.c:41-70 | a key is read exactly from 64 hexadecimal digits, and then written with the same ones, small letters for capitals; any other text leaves the key alone |
| `KeyText.HexIsInjective` | lib/key.c:61-67 | different bytes are written differently, and only with digits that can be read back |
| `Sha256.Context.constructor` | lib/sha256.c:85-97 | a new context stands for the empty message |
| `Sha256.Context.Transform` | lib/sha256.c:44-83 | one call compresses the 64 buffered bytes into the chaining value as section 6.2.2 of FIPS 180-4 says |
| `Sha256.Context.Update` | lib/sha256.c:99-112 | feeding in a piece appends it to the message the context stands for, wherever block borders fall |
| `Sha256.Context.PadBuffer` | lib/sha256.c:120-135 | both padding branches leave the same continuation: the fold over the padded message is one compression away |
| `Sha256.Context.Final` | lib/sha256.c:114-158 | the 32 bytes written are the hash of everything fed in: the fold of the compression function over the message padded as in section 5.1.1 of FIPS 180-4 |
| `Sha256.KeyFromFile` | lib/key.c:10-39 | however the file is cut into reads, the key is the hash of the whole file; when a read fails the key is left alone; the size reported is what was read |
| `Sha256.HashBlocksAppend` | lib/sha256.c:106-110 | hashing one more block continues the fold |
| `Sha256.LengthFieldSpells` | lib/sha256.c:136-143 | the eight bytes of the length field spell the 64-bit number, most significant byte first |
| `Sha256.PaddingForm` | lib/sha256.c:120-143 | the padded message is the one string of whole blocks that is the message, a marker, as few zeros as possible, and eight bytes that spell its length in bits |
| `Sha256.PaddingIsInjective` | lib/sha256.c:120-143 | below 2^61 bytes different messages are padded differently |
| `Sha256.WordIsBigEndian` | lib/sha256.c:48-49 | four bytes are read as one word in base 256, most significant first |
| `Sha256.BytesAreBigEndian` | lib/sha256.c:146-157 | the four bytes that are written for a word are its digits in base 256, most significant first |
| `Sha256Example.HashOfAbc` | lib/sha256.c:15-158 | the hash of the three bytes "abc" is the one that the standard prints, derived through all words and rounds |
| `RingInvariant.FoundedInv` | lib/dht.c:261-266 | a lone node satisfies the ring invariant: no successor jumps over the founder, every successor knows a predecessor, known predecessors lead to their node inside their arc |
| `RingInvariant.JoinInv` | lib/dht.c:246-260 | joining behind any successor with no founder in between keeps the ring invariant, however that successor was found |
| `RingInvariant.NotifyInv` | lib/dht.c:295-316 | a notification by a node to its own successor keeps the invariant and makes up for a successor that knew no predecessor yet |
| `RingInvariant.StabilizeInv` | lib/dht.c:272-292 | stabilization keeps the invariant |
| `RingInvariant.StepInv` | lib/dht.c:226-362 | every join, stabilization, notification and finger repair keeps the invariant, with arbitrary finger start keys |
| `RingRuns.RunInv` | lib/dht.c:226-362 | the invariant holds in every state of every run from a lone founder |
| `RingRuns.RunKeepsReach` | lib/dht.c:226-316 | once a reaches b along successors it does so after every later run |
| `RingRuns.AllReachFounder` | lib/dht.c:226-316 | in every reachable state each member leads to the founder without overshooting it |
| `RingStale.RunKeepsArc` | lib/dht.c:272-316 | a successor path that does not overshoot its end survives every run |
| `RingStale.StaleAnswerIsSafe` | lib/dht.c:272-292 | acting on a predecessor reported before any number of other steps keeps the invariant and never raises the measure |
| `RingConvergence.StabilizeDrops` | lib/dht.c:272-292 | a stabilization that changes anything strictly lowers the sum of successor and predecessor distances, counted in members (an unset predecessor counts as one more than there are) |
| `RingConvergence.MeasureBound` | lib/dht.c:272-292 | that sum is at most quadratic in the number of members |
| `RingConvergence.QuiescentIffIdeal` | lib/dht.c:272-316 | under the invariant no stabilization can change anything exactly when successors and predecessors form the one cycle over all members sorted by id |
| `RingConvergence.Converges` | lib/dht.c:271-292 | after more rounds than the measure, in which everyone stabilizes in any order, the ring is ideal and has the same members |
| `RingConvergence.IdealIsInv` | lib/dht.c:226-316 | on an ideal ring any member can serve as the founder of the invariant |
| `RingConvergence.IdealExists` | lib/dht.c:226-316 | an ideal ring over any given members arises by joins and stabilization from one of them |
| `RingTurns.TurnSeen` | lib/tracker.c:833-913 | one turn of check, stabilization and any repairs does to the ring of those that answer what one stabilization does, up to fingers, and keeps the invariant |
| `RingTurns.TurnsConverge` | lib/tracker.c:833-913 | rounds of such turns, more than the measure, make the ring of those that answer ideal |
| `RingRepair.OtherChecks` | lib/tracker.c:841-891 | before its predecessor has noticed a departure, the check of anybody else changes no successor, and no predecessor but that of the leaver's successor |
| `RingRepair.LoserChecks` | lib/tracker.c:841-891 | the check of the predecessor takes the first finger that answers, or else its own predecessor, and tells it; from then on everyone left has a successor left and the ring invariant holds among them, whatever fingers name |
| `RingRepair.OtherTurns` | lib/tracker.c:833-913 | a whole turn of anybody but the predecessor leaves the gap as it is |
| `RingRepair.TurnsHeal` | lib/tracker.c:833-913 | any turns in any order: nothing changes until the predecessor has one, and then the invariant holds among those left |
| `RingRepair.DepartureHeals` | lib/tracker.c:833-913 | when one of three or more leaves an ideal ring, turns in which its predecessor takes part and then rounds of everyone, more than a quadratic bound, with any repairs, end in an ideal ring without a pointer to it |
| `RingRepair.TracelessRuns` | lib/tracker.c:833-913 | once nobody points at a node that left, the ring part of every turn runs to its end; with nobody gone always |
| `RingRepair.OneOfTwo` | lib/tracker.c:841-896 | of two members the one left finds a successor exactly when one of its fingers names itself, and then no stabilization changes anything although the ring is not ideal |
| `RingLookup.PassProgress` | lib/dht.c:90-105 | a pass of the lookup loop always finds a member strictly closer to the id; the not-found branch is never taken |
| `RingLookup.FindNextIsOwner` | lib/dht.c:15-37 | on an ideal ring every member with another id finds the one owner of the id |
| `RingLookup.FindPrevIsPrev` | lib/dht.c:70-110 | on an ideal ring every member finds the one predecessor of the id |
| `RingLookup.LookupsAgree` | lib/dht.c:15-110 | all members give the same answers, whatever members their fingers 1 and up name |
| `RingLookup.FindNextOwnsUnlessSelf` | lib/dht.c:18-22 | a node asked for its own id answers with the owner exactly when it is alone; asked for another id it always does |
| `RingLookup.RunSuccCloser` | lib/dht.c:272-292 | over any run a successor pointer only moves closer |
| `RingEffects.ClosestExactly` | lib/dht.c:173-190 | on any ring the scan returns the highest entry of the table that is set and lies strictly between the node and the id, and nothing exactly when there is none |
| `RingEffects.LookupPath` | lib/dht.c:70-109 | on any ring a lookup goes from each member to that entry of its table, and ends at the first member whose arc to its successor contains the id |
| `RingEffects.HeardExactly` | lib/dht.c:295-316 | a notification changes one predecessor at most: to the caller when none that answers is known or the caller lies in between |
| `RingEffects.JoinedExactly` | lib/dht.c:246-260 | a newcomer knows the successor that was found and nothing else; of the others that successor alone hears of it |
| `RingEffects.StabilizingExactly` | lib/dht.c:272-292 | a stabilization moves one successor at most, to a reported predecessor in between, and tells the successor it then has; no finger and nothing else changes |
| `RingEffects.StaleExactly` | lib/dht.c:272-292 | the same for an answer from some time ago; with the answer of now it is the stabilization |
| `RingEffects.CheckedExactly` | lib/tracker.c:841-896 | the check unsets exactly the pointers of the node that do not answer; a lost successor is replaced by the lowest finger that answers, or else by the predecessor, and that one alone is told |
| `RingEffects.TurnBegins` | lib/tracker.c:833-903 | before the repairs a turn is the check and then the stabilization |
| `RingEffects.TurnRepairs` | lib/tracker.c:904-913 | each repair of a turn sets its entry to the node that is found for its start key in the ring as it is by then, and leaves every other pointer as it is |
| `RingLookup.ChaseEnds` | lib/dht.c:85-109 | a lookup ends even when the ring changes between its requests, within as many passes as there are keys left, and what it returns can be joined behind |
| `RingHops.RepairHelps` | lib/dht.c:345-362 | on an ideal ring a repair with start id + 2^i makes finger i the owner of that key, and spoils no correct finger of any node |
| `RingHops.RepairsMakeCorrect` | lib/dht.c:345-362 | any list of such repairs that covers entries 1 to 255 of all members, in any order, makes all finger tables correct |
| `RingHops.CorrectExists` | lib/dht.c:226-362 | a ring with correct finger tables over any members arises by joins, stabilization and repairs |
| `RingFingers.RoundsOfAllRun` | lib/tracker.c:833-913 | with everybody there all rounds of turns run to their end in the ring, whatever entries they repair, and keep the invariant |
| `RingFingers.TurnIsRepairs` | lib/tracker.c:833-913 | on an ideal ring every turn runs, and does nothing but its repairs |
| `RingFingers.TurnsMakeCorrect` | lib/tracker.c:833-913 | on an ideal ring any turns whose repairs have the documented start keys and between them cover entries 1 to 255 of everyone run, and make all finger tables correct |
| `RingFingers.RoundsThenRepairs` | lib/tracker.c:833-913 | from any state that joins and stabilizations lead to: turns of members run, with any repairs; after more rounds of them than the measure says, turns with repairs as above make all finger tables correct |
| `RingHops.ClosestIsHighest` | lib/dht.c:173-190 | for every entry that is set and lies strictly between the node and the id, the scan returns that entry or a higher one |
| `RingHops.HopHalves` | lib/dht.c:90-105 | with correct fingers each hop lowers the bit length of the distance to the predecessor of the target |
| `RingHops.LogarithmicLookup` | lib/dht.c:85-109 | with correct fingers a lookup takes at most 256 hops |
| `Dht.Node.Reset` | lib/dht.c:229-244 | joining forgets all fingers and the predecessor, and writes the given start keys into the fingers |
| `Dht.Node.FindClosestPreceding` | lib/dht.c:173-190 | the downward scan of the finger array finds the highest initialized entry strictly between the node and the id |
| `Dht.Node.DropDead` | lib/tracker.c:841-896 | the loop over the fingers and the look at the predecessor leave what the check of a node says, for any set of nodes that do not answer; a lost successor is replaced by the lowest finger that answers, or else by the predecessor, and the node stops exactly when there is neither |
| `Dht.Network.FindNext` | lib/dht.c:15-37 | returns the successor the specification names; the mutual recursion with the remote forms ends |
| `Dht.Network.FindNextRemote` | lib/dht.c:38-64 | the same for a request that another node answers, or the node itself |
| `Dht.Network.FindPrev` | lib/dht.c:70-110 | the loop over current and next ends in every well-formed ring, with the predecessor the specification names |
| `Dht.Network.FindPrevRemote` | lib/dht.c:111-137 | the same for a request that another node answers |
| `Dht.Network.FindClosestPrecedingRemote` | lib/dht.c:191-222 | the scan of another node's table |
| `Dht.Network.SetPrev` | lib/dht.c:140-147 | changes the predecessor of one node and nothing else in the network |
| `Dht.Network.Notify` | lib/dht.c:295-316 | changes the network as a notification does: a predecessor that does not answer is forgotten first and replaced, with all alive it is the notification step |
| `Dht.Network.Stabilize` | lib/dht.c:272-292 | for any nodes that do not answer: succeeds exactly when successor and reported predecessor answer, and then changes the network as the turn does; a failure leaves at most the adopted successor |
| `Dht.AllAliveStabilize` | lib/dht.c:272-292 | with all alive that is the stabilization step, whether it fails or not |
| `Dht.Network.FixFingers` | lib/dht.c:345-362 | changes finger i, never finger 0, to the successor found for its start key; start keys stay |
| `Dht.Network.Join` | lib/dht.c:226-269 | changes the network as the join step does, with a peer or without, and the node has the start keys given |
| `SortedSeq.InsertedLaws` | lib/llist/node_list.c:15-45 | insertion keeps a list strictly ascending; its entries are the old ones and the new one unless its id was there |
| `SortedSeq.RemovedLaws` | lib/llist/node_list.c:49-71 | removal keeps a list strictly ascending and takes out exactly one id |
| `SortedSeq.RemovedUndoesInserted` | lib/llist/node_list.c:4-71 | removing a newly added id gives the old list back |
| `SortedSeq.LoadedKeepsIffAscending` | lib/file.c:278-280 | adding records one by one gives them back in order exactly when they were strictly ascending |
| `LinkedList.SortedList.Add` | lib/llist/file_list.c:4-53 | the pointer walk inserts where the specification says; old cells stay the same objects in the same order and keep their contents (list_add has the same walk) |
| `LinkedList.SortedList.Remove` | lib/llist/node_list.c:49-71 | the pointer walk unlinks exactly the cell with the id and leaves all others alone (file_list_remove has the same walk) |
| `LinkedList.SortedList.RemoveAndGoOn` | lib/tracker.c:450-455 | a walk that reads the next pointer before a removal goes on at the right cell |
| `LinkedList.SortedList.Free` | lib/llist/file_list.c:84-99 | popping the head empties the list |
| `TorrentFile.SerializeFile` | lib/file.c:242-270 | the buffer holds the header and then every peer of the list in order |
| `TorrentFile.MessageLayout` | lib/file.c:242-270 | in a message the header comes first and then the records in the order of the list, 48 bytes each |
| `TorrentFile.DeserializeFile` | lib/file.c:273-281 | the list built on the heap holds the records of the message sorted and without duplicates |
| `TorrentFile.RecordAt` | lib/file.c:273-281 | record i of a message is made of its i-th 48 bytes |
| `TorrentFile.IdsAreTheirBytes` | lib/file.h:19-26 | files have the same id exactly when the 32 bytes behind the magic agree, and peers when their first 32 bytes do |
| `TorrentFile.RoundTrip` | lib/file.c:242-281 | deserializing undoes serializing exactly when the peers are strictly ascending |
| `TorrentFile.NeverTerminator` | lib/tracker.c:675-677 | no serialized file has the length of the zeroed record that ends a stream |
| `TorrentFile.StreamRoundTrip` | lib/tracker.c:432-467 | the reader decodes from a MOVE_DATA stream exactly the files sent, in order |
| `TorrentFile.DeserializedIsStorable` | lib/file.c:273-281 | whatever complete message arrives, the file made of it has sorted peers |
| `TorrentFile.SavedKeepsData` | lib/file.c:53-60 | saving changes nothing in the header but the path |
| `TorrentFile.SavedPathIsWritten` | lib/file.c:41-60 | the path reads as folder, name, underscore, id in hexadecimal and extension, unless that is too long; then nothing changes |
| `TorrentFile.SavedTwice` | lib/file.c:41-60 | saving a file again, as the receiver of a moved file does, changes nothing more |
| `Tracker.Tracker.Search` | lib/tracker.c:217-228 | the walk answers with the serialized file that is listed under the id, and with nothing exactly when there is none |
| `Tracker.Tracker.AddPeer` | lib/tracker.c:392-403 | the file with the id gets the peer, unless it has one with that id, and keeps its header and its other peers; every other file is left alone; reports whether there was one |
| `Tracker.Tracker.AddFile` | lib/llist/file_list.c:4-13 | the list stores a copy with sorted peers under the file's own id, unless that id is taken |
| `Tracker.Tracker.Upload` | lib/tracker.c:471-486 | stores the file the message encodes, with its path written, unless its id is taken |
| `Tracker.Tracker.MoveData` | lib/tracker.c:432-467 | sends exactly the files in (self, newcomer], in order, and keeps exactly the others; the list is changed during the walk |
| `Tracker.Tracker.Receive` | lib/tracker.c:661-689 | the newcomer stores all files of the stream, with their paths written, and stops at the terminator |
| `Tracker.FetchFiles` | lib/tracker.c:637-697 | sender and receiver together: what leaves the successor's list is what enters the newcomer's |
| `Tracker.Tracker.HandOver` | lib/tracker.c:738-761 | the leaver's list is empty in the end and the successor has added every file of it |
| `Tracker.Tracker.Redistribute` | lib/tracker.c:915-948 | waits for itself exactly when some file's receiver is the tracker itself, and then stands at the first such file with all before it decided; otherwise keeps exactly the files in (prev, self] and sends each other one, in order, to the successor the ring names |
| `Ownership.OwnerAfterJoin` | lib/tracker.c:637-638 | a newcomer takes over exactly the arc from the old owner of its id to itself |
| `Ownership.OwnerAfterLeave` | lib/tracker.c:736-738 | a leaver's arc falls to its successor and nothing else changes |
| `Placement.SentToIsSelect` | lib/tracker.c:918-948 | each receiver gets its part of the files, in order, and no others |
| `Placement.SweepConserves` | lib/tracker.c:915-948 | handing files over loses none and makes up none in any ring, stable or not, as long as requests are answered |
| `Upkeep.TurnConserves` | lib/tracker.c:833-948 | in any ring, a turn that runs to its end loses no file, makes up none and sends none to a node that left |
| `Upkeep.TurnCleans` | lib/tracker.c:915-948 | where those left form an ideal ring such a turn leaves its tracker with its own files only and no other with new foreign ones |
| `Upkeep.TurnsPlaceAll` | lib/tracker.c:833-948 | from any distribution of the files whatever, one turn of everyone left in an ideal ring puts every file at its owner and leaves no pointer to a node that left |
| `Upkeep.IdealTurnsRun` | lib/tracker.c:833-948 | on an ideal ring every turn runs to its end, whatever files the trackers hold and whatever fingers are repaired |
| `Blocking.NeverBlocked` | lib/tracker.c:922-939 | with any fingers: when no member has the tracker as successor and its predecessor strictly in between, a redistribution never names the tracker itself |
| `Blocking.SkippedIdBlocks` | lib/tracker.c:922-939 | with any fingers: when there is such a member and the tracker's lookup for the next id stops there, a file with that id blocks |
| `Blocking.SettlesUnlessBlocked` | lib/tracker.c:915-948 | with nobody gone the redistribution of a turn runs to its end exactly when no file is for the tracker itself |
| `Blocking.BlockedIff` | lib/tracker.c:922-939 | where every finger names its own node or one that the successors lead to without passing it: a redistribution is blocked exactly when a stored id lies between such a member, to which the successors lead, and the predecessor |
| `Blocking.CanBlockIff` | lib/tracker.c:922-939 | under the same condition: some id can block exactly when there is such a member |
| `Blocking.StepKeepsFollowing` | lib/dht.c:226-316 | joins, stabilizations and notifications keep that condition |
| `Blocking.RepairKeepsFollowing` | lib/dht.c:345-362 | so does a repair by a node that no successor pointer jumps over |
| `Arrival.PredecessorTurn` | lib/tracker.c:833-948 | after a join into an ideal ring one turn of the newcomer's predecessor runs to its end and makes the ring ideal |
| `Arrival.JoinBlocksIff` | lib/tracker.c:833-948 | after a join into an ideal ring, turns of anyone in any order, with any repairs and any contents of unset predecessor fields, fail to run to their end exactly when, before the predecessor's first turn, the newcomer sends a given file back and then its successor has a turn |
| `Departure.DepartedInherited` | lib/tracker.c:736-761 | the handover leaves the leaver with nothing, its successor with its files, and everyone else as before |
| `Departure.LeaveBlocksIff` | lib/tracker.c:833-948 | turns before the first one of the leaver's predecessor, among them one of its successor: they run to their end only if no file was handed over, and without repairs exactly then |
| `Departure.GapCloses` | lib/tracker.c:833-913 | some turns of the predecessor alone, without repairs, run to their end and make the ring of those left ideal |
| `Placement.MoveDataTakesArc` | lib/tracker.c:436-455 | of the successor's files exactly those between its old predecessor and the newcomer are taken |
| `Placement.JoinKeeps` | lib/tracker.c:637-692 | after a join with MOVE_DATA, and once the ring is ideal again, every file is at its one new owner and none is lost |
| `Placement.LeaveKeeps` | lib/tracker.c:736-761 | after the handover of a leaver every file is at its one new owner, and none is lost, in every ideal ring over those left |
| `Placement.PublishKeeps` | lib/tracker.c:1027-1047 | an upload goes to the owner and adds the file, with its path written, to the catalogue unless its id is taken |
| `Placement.QueryFinds` | lib/tracker.c:956-981 | from every member a search answers with the catalogue's file, or with nothing exactly when the catalogue has none |
| `Swarm.WithPeerLaws` | lib/file.c:283-285 | one peer more, unless one with its id is there; the header and the other peers stay |
| `Swarm.FetchKeeps` | lib/tracker.c:991-1002 | a download adds that peer to the one catalogue entry, at the one tracker that has it |
| `Swarm.PeriodicRuns` | lib/tracker.c:833-948 | between events every turn runs to its end and the ring stays ideal |
| `Swarm.EventRefines` | lib/tracker.c:833-1047 | each upload, download, join with turns, departure with turns, and single turn does to the whole system what it means for the catalogue |
| `Swarm.SearchAnswersCatalogue` | lib/tracker.c:956-981 | after every run from a lone tracker, searches from all members answer what the uploads and downloads alone determine |
| `Swarm.UploadedIsFound` | lib/tracker.c:1010-1047 | a file uploaded under a new id is found after any later run from every member: with all its peers, its header the same outside the path, and the path written unless it is too long |
| `Swarm.DownloaderIsFound` | lib/tracker.c:991-1002 | after a download of a listed file, and any later run, a search from every member answers with a file that lists the downloader and all the peers there were |
| `Swarm.JoinIsPossible` | lib/tracker.c:595-697 | a node with an unused id can always join: one turn of its predecessor, and then one of everybody, with any repairs |
| `Swarm.LeaveIsPossible` | lib/tracker.c:736-948 | any of three or more members can leave, through turns of its predecessor and then one of everybody left, without repairs |
| `Swarm.JoinCanBlock` | lib/tracker.c:833-948 | a run of one join and one upload after which a second join and two turns make a tracker wait for itself |
| `Swarm.RunStaysFiled` | lib/tracker.c:471-486 | every listed file is filed under its own id, with sorted peers and its path written |
| `HalfStable.RedistributionCanBlock` | lib/tracker.c:836-948 | a run of joins and stabilizations and a repair of any finger after which an ordinary upload and redistribution make a tracker send a request to itself while it holds its lock: a member skips its predecessor |
| `Blocks.OffsetDoesNotWrap` | lib/download.c:165-168 | the 32-bit block offset never wraps for a block of the table |
| `Blocks.BlocksTile` | lib/download.c:60-62 | the blocks end where the kept size ends, and that is the end of the file exactly when its size fits in 32 bits |
| `Blocks.BlockLengths` | lib/tracker.c:345-367 | every requested block is non-empty and only the last one may be short |
| `Blocks.WritingSetsBit` | lib/download.c:165-175 | writing a block that was missing and setting its bit gives the file assembled from the new bits |
| `Blocks.CompleteIffFits` | lib/download.c:57-62 | a complete download equals the source for all contents exactly when the size fits in 32 bits |
| `Download.Download.constructor` | lib/download.c:3-67 | a new download is idle, without blocks, on a zeroed file of the full size |
| `Download.Download.InitPeers` | lib/download.c:69-107 | the rebuilt array holds the listed peers that sent a table, in order; the loop ends exactly when as many answers other than empty ones arrive as there are listed peers |
| `Download.UsefulAt` | lib/download.c:77-88 | every answer but the empty ones moves on to the next listed peer, in order |
| `Download.AliveAt` | lib/download.c:91-103 | each peer that sent a table is in the array with that table, behind those that were asked before it |
| `Download.EmptyForEver` | lib/download.c:77-88 | empty answers never bring the loop closer to its end |
| `Download.Download.TryPeers` | lib/download.c:150-182 | the first peer that claims the block and answers, and no later one, has its bytes written at the offset of the block and the bit set, whatever the bytes are; without one nothing changes |
| `Download.Download.AtBlock` | lib/download.c:134-185 | the section under the lock changes nothing unless the download runs, lacks the block and a peer delivers it |
| `Download.FirstsAreWritten` | lib/download.c:131-194 | in the file afterwards every block that was missing is what the first peer sent that delivered it; when no reply is longer than a block everything else is as it was |
| `Download.HonestArrival` | lib/download.c:165-175 | when the bytes are the source's block the write is the step that the interleaving model takes |
| `Download.Download.Start` | lib/download.c:109-213 | with a pause at any points the loop ends done exactly when it was never paused and all bits are set; undisturbed it gets exactly the deliverable blocks, each from the first peer that delivers it, and leaves the rest of the file alone; with the source's blocks the download stays in order |
| `Download.Download.PauseNow` | lib/downloader.c:148-157 | only a running download becomes paused; any other is refused |
| `Downloader.Downloader.Claim` | lib/downloader.c:35-42 | the scan marks every idle download and returns the last |
| `Downloader.Downloader.PauseAt` | lib/downloader.c:138-160 | pauses one running download, refuses others and missing indexes |
| `Downloader.Downloader.Add` | lib/downloader.c:89-136 | a listed download is at most made idle again, when it is paused; a new one is appended; either has the peers that answered; the request ends exactly when it does not ask the peers or enough of them answer, and changes no list before |
| `DownloadRuns.AddedIsAStep` | lib/downloader.c:98-131 | the user's request is a step of the interleaving model |
| `DownloadRuns.AddedExactly` | lib/downloader.c:89-136 | a request makes the first download with the id idle when it is paused, and changes no other; without one it lists a new download behind the others |
| `DownloadRuns.StepKeeps` | lib/downloader.c:19-160 | every step of the workers and the user keeps the invariant; bits are only set, done stays done |
| `DownloadRuns.RunKeeps` | lib/downloader.c:19-160 | the same between any two points of a run |
| `DownloadRuns.RunLosesNothing` | lib/downloader.c:19-160 | in any run every listed download keeps its id, its file and the blocks it has, and one that is done stays as it is |
| `DownloadRuns.OneWorkerEach` | lib/downloader.c:35-53 | no download ever has two workers |
| `DownloadRuns.DoneMeansComplete` | lib/download.c:196-206 | a done download has every block bit, and its file is the source as far as the 32-bit size reaches and zeros behind |
| `DownloadRuns.DoneButIncomplete` | lib/downloader.c:103-108 | a run from the empty list, for any file of two blocks, that ends with the download done and a block missing; only its last request comes before the worker has left |
| `DownloadRuns.EarlyRequestDoubles` | lib/downloader.c:35-42 | whenever a paused download without idle ones behind it is added again while a worker is at it, the next claim puts a second worker there |
| `DownloadRuns.EarlyRequestEnds` | lib/download.c:196-206 | when a download is added again while its worker has only to finish, the flag of that worker decides whether the download ends done, whatever bits are set |
| `DownloadRuns.DoneButWrong` | lib/download.c:57-62 | a run from the empty list in which a file of a multiple of 2^32 bytes is done at once, and is right exactly when it consists of zeros |
| `DownloadRuns.RunningWithoutWorker` | lib/downloader.c:35-42 | a scan over two idle downloads leaves one running without a worker |
| `DownloadEnds.WorkerEnds` | lib/download.c:131-206 | a worker that is not paused leaves its download done exactly when no block is missing in the end, and paused otherwise, from any block on; the blocks are those that were there or arrived, and no other download changes |
| `DownloadEnds.DownloadEndsDone` | lib/downloader.c:19-60 | a file that is added, taken and opened ends done exactly when every block arrives, and is then the file of its peers when its size fits in 32 bits |
| `DownloadEnds.FailedOpenStrands` | lib/download.c:112-117 | after a failed open the download stays running without a worker, and no claim picks it up until it is paused and requested again |
| `Serving.RightIffServedRight` | lib/download.c:150-182 | a download of less than 2^32 bytes to which every block arrives, with the right lengths, equals the source exactly when every block that arrived does |
| `Serving.ServedByUnfinished` | lib/tracker.c:239-278 | served by a peer with other bytes on disk it ends as those; with zeros when that peer has nothing yet |
| `Bootstrap.ConnectKeeps` | src/server.c:154-179 | after any connect the cursor is in the list; a new tracker gets a peer exactly when there is one, another tracker that is in the list |
| `Bootstrap.DisconnectKeeps` | src/server.c:198-205 | after any disconnect the cursor is in the list unless the list is empty |
| `Bootstrap.ConnectMovesOn` | src/server.c:164-179 | a newcomer is given the tracker at the cursor, and the cursor goes on to the next one in the order of ids, round the end; so the next newcomer is given another one |
| `Bootstrap.DisconnectMovesOn` | src/server.c:198-205 | the cursor moves exactly when its tracker leaves, to the next one |
| `Bootstrap.EveryoneInTurn` | src/server.c:145-209 | in any run, between two newcomers that are given the same tracker every other tracker that has been there all the time is given to someone |
| `Bootstrap.ExpectedByIds` | src/server.c:145-209 | which connects and disconnects are expected in a run follows from the ids that came and went |
| `Bootstrap.NewcomerGetsPeer` | src/server.c:145-209 | after every run of fresh connects and connected disconnects the next newcomer is given a different, still connected tracker, or none exactly when there is none |
| `Bootstrap.Server.Connect` | src/server.c:152-181 | the pointer version on the heap list does the same |
| `Bootstrap.Server.Disconnect` | src/server.c:196-209 | the pointer version moves the cursor before the cell goes |
| `CmdParser.MarkSpaces` | lib/cmd_parser.c:16-26 | spaces outside quotes become ends of strings, everything else stays |
| `CmdParser.FlagRepeats` | lib/cmd_parser.c:3-11 | compares the strings of all recorded flags with the new one |
| `CmdParser.NextToken` | lib/cmd_parser.c:40-42 | skips ends of strings but never the last character |
| `CmdParser.Unquote` | lib/cmd_parser.c:76-82 | a quoted value loses its first and its last character, in place |
| `CmdParser.OneToken` | lib/cmd_parser.c:39-94 | one pass of the loop keeps what is recorded and what is ahead equal to the outcome |
| `CmdParser.CmdParse` | lib/cmd_parser.c:13-101 | the positions recorded in the changed buffer read as exactly the outcome specified for the original text, errors included |
| `Commands.MarkedAt` | lib/cmd_parser.c:16-26 | exactly the spaces behind an even number of quotes become ends of strings |
| `Commands.RoundTrip` | lib/cmd_parser.c:13-101 | any name and distinct flags with no, plain or quoted values, written with single spaces, are read back; exactly up to ten of them, of more the first ten |
| `Commands.OutcomeOfAny` | lib/cmd_parser.c:13-101 | any name and any flags, repeats allowed: rejected exactly when of two equal flags the first has its value or is not next to the second, and the second is among the first ten or the eleventh behind a tenth without a value; otherwise read back, the first ten of them |

## Left out

- RingConvergence.Converges: bare stabilizations; RingTurns.TurnsConverge has whole turns. No node fails or leaves in between; with no successor list the code has no guarantee to prove there.
- RingRepair.DepartureHeals: one node leaves, and the next one only when the ring is ideal again. Turns that come to the node that left and fail are left out.
- RingHops.LogarithmicLookup: assumes fingers that meet the documented meaning; the start keys of the code do not have it.
- Dht.Network.Stabilize: a remote call is an atomic read or update of another node's state, and a whole turn is one step; late answers are the subject of RingStale.
- Dht.Network.Join: addresses are dropped, a node is its id; the start keys are given as a parameter instead of being computed. key_double, which computes their steps, reads the byte before the key and is not modelled.
- Dht.Network.FixFingers: the index is a parameter between 1 and 255 instead of being drawn at random.
- RingFingers.TurnsMakeCorrect: assumes repairs of all entries, with the documented start keys; the code seeds its generator with the same byte of the node's id before each draw, so that one node repairs the same entry again and again.
- Tracker.Tracker.AddPeer: the peers of a stored file are a sorted sequence inside the cell, not a second linked list; TorrentFile has the version on the heap.
- Tracker.Tracker.Receive: the stream comes from a MOVE_DATA handler; error responses and broken connections do not occur.
- Tracker.Tracker.Redistribute: the next pointer is read before the removal, as in the MOVE_DATA handler, where the code reads it from the removed cell; the requests are returned instead of being answered inside the loop, where Upkeep has their effect.
- TorrentFile.SerializeFile: sizes are unbounded integers instead of 32-bit ones.
- TorrentFile.DeserializeFile: the message is at least a header long and ends where a record ends; the code reads past the end of any other.
- Swarm.EventRefines: uploads, downloads and further joins or departures wait until the ring is ideal and every file at its owner. All turns run to their end. Of the two trackers in a ring of two none can leave in this model.
- Swarm.LeaveIsPossible: the turns repair no finger; the five repairs of the code's turns can come to the node that left and fail, and then the turn does.
- Placement.LeaveKeeps: the ring after the departure is a parameter; Swarm.EventRefines has the one that the turns make.
- Download.Download.InitPeers: no table that arrives is shorter than the list of blocks; the code reads past the end of such a one.
- Download.Download.TryPeers: what arrives ends within the file, and every seek and write succeeds.
- DownloadRuns.DoneMeansComplete: every block that arrives is the source's, and a paused download is not added again before its worker has left; Serving and DownloadRuns.DoneButIncomplete say what happens otherwise.
- Download.Download.constructor: the questions for a path and the errors of creating the file.
- Downloader.Downloader.Claim: stopping the workers, sleeping, and the error codes of a failed open; DownloadEnds.FailedOpenStrands has what it leads to.
- Bootstrap.Server.Disconnect: somebody is connected; the code reads the cursor of an empty list otherwise.
- CmdParser.CmdParse: the recorded arguments are a sequence of positions instead of an array of ten pointers.
- The SET_PREV request: nothing in the system sends it.
- Sockets, request headers, accept loops, locks and memory management: a critical section is one step.
- Saving, loading and deleting torrent files on disk, beyond the path that saving writes into the file.
- key_sub, key_sub_int and key_double.
- The searches of the bootstrap server in its upload list, and its SEARCH_PEER request.
- local_file_list, which is node_list once more, and the growth of download_list.
- Printing, logging, error texts, help tables and the validation of flags against them.
