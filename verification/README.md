# CrossByte: a verified model of its hardest parts

CrossByte is a Haxe framework with native bridges in C++, a fake PostgreSQL client library for its
tests, and JavaScript and Go harnesses. This project models the parts of it whose correctness is
hardest to see by reading, and proves what each of them is for.

* **Lock files** (`LockFile.dfy`): the protocol by which the participants of a name share one lock
  although the lock's file may be removed and made again, as a transition system whose steps are
  single system calls.
* **Shared memory** (`SharedRegion.dfy`, `RegionOthers.dfy`, `RegionCalls.dfy`, `TornWrites.dfy`,
  `TornRun.dfy`): a SharedObject's region, under the lock file or under the region's own lock, as an
  atomic register. Copies go byte by byte and a participant may die between any two steps. The calls, with their retry loops and exits, are methods
  that make such steps while others make theirs, and each has one moment at which it takes effect. What a
  death in the middle of a write does is worked out apart.
* **Local connections** (`LocalConnection.dfy`, `ListenCalls.dfy`): the names of sockets and lock files,
  the listeners' system, and listening and closing as methods that make its steps.
* **Datagram batches** (`BatchSender.dfy`): kernel segmentation, sendmmsg and the fallback between them
  against sending one datagram after another.
* **Windows command lines** (`CommandLine.dfy`): what is written, against what a program reads back.
* **PostgreSQL blocks** (`PostgresInts.dfy`, `PostgresResult.dfy`, `PostgresEncoder.dfy`,
  `PostgresDecoder.dfy`, `PostgresParameters.dfy`): the results and the bound parameters that cross between Haxe and C++.
* **The fake server's table** (`KvModel.dfy`, `KvTable.dfy`, `KvStore.dfy`, `KvTransactions.dfy`): a
  map with revisions and tombstones, the sorted array that refines it, and transactions by copying.
* **DTLS** (`DtlsTable.dfy`, `DtlsCalls.dfy`, `DtlsSession.dfy`): the shared table of sessions with each
  thread's remembered lookup, and one session's states and queues.
* **Replication** (`Replication.dfy`): patches against a tick two back, applied into a ring of 32.
* **WebSocket frames** (`WebSocketFrames.dfy`, `FrameStreams.dfy`, `WebSocketEcho.dfy`): the frames of
  sections 5.2 and 5.3 of RFC 6455 as two harnesses write and parse them, from a stream cut anywhere.
* **A child's descriptors** (`SpawnDescriptors.dfy`) and **test selection** (`Affected.dfy`).

What answers from outside (the kernel, mbedTLS, libpq, other threads and processes) is any answer its
contract allows. A clock, or the text of a time read as a number, is a parameter.

## What turned out false

* Every result the encoder writes can be read back except one of rows without columns: the decoder
  refuses those, on the ground that PostgreSQL never sends them, while the encoder writes them. And an
  affected count above 2^53 comes back rounded, unless a Float holds it. `PostgresDecoder.ReceivedIff` has
  the exact condition; `PostgresResult.RowsWithoutColumnsRefused` and `PostgresDecoder.CountRounded` are instances.
* Compare-and-set at revision 0, "only if there is no record", can succeed twice with no purge: a tombstone
  counts as no record. `KvModel.OneWinner` has the condition and `KvModel.CreateWinsTwice` is an instance.
* A write whose writer dies in the middle of it can leave neither the old value nor the new. By
  `TornWrites.NeverNeitherIff` it never does if and only if the data agrees with the value as far as both go, or
  has the same length and differs in one byte. `TornRun.TornValueRead` is a run in which a third value is read.
  That the old value survives is a stricter condition, which `TornWrites.SurvivesEveryDeathIff` has.
* A plain name can have the socket of another name that went through the hash, with no collision of hashes:
  `PipeNames.PlainSharesWithHashed` says when, and `PipeNames.PlainTakesHashedPath` is an instance.

The documentation promises its laws of revisions until a purge removes a tombstone, and so they are stated;
`KvModel.PurgeForgetsRevisions` shows that a purge does end them. A DTLS handle looked up before it was given stays null after
(`DtlsTable.GuessedHandleStaysNull`), which is why the laws of the session table are of runs in which threads
use handles they were given.

## Model

| member | source | states |
|---|---|---|
| `LockFile.StepKeepsInv` | src/crossbyte/ipc/_internal/NativeSharedObject.cpp:404-520 | no single system call of any participant, death or cleaner breaks the agreement of lock table and participants, or moves the file of a verified holder; what is unlinked is the unlinker's own locked file, and what a cleaner deletes nobody has locked |
| `LockFile.RunKeepsInv` | src/crossbyte/ipc/_internal/NativeSharedObject.cpp:404-520 | the invariant in every state of every interleaving |
| `LockFile.MutualExclusion` | src/crossbyte/ipc/_internal/NativeSharedObject.cpp:445-520 | in every state of every run at most one participant is in the name's critical section, and its file is the one at the path |
| `LockFile.HolderKeepsThePath` | src/crossbyte/ipc/_internal/NativeSharedObject.cpp:438-475 | while a verified holder makes no step of its own, whatever the others do, it goes on holding the same file and that file stays at the path |
| `SharedRegion.SetKeepsInv` | src/crossbyte/ipc/_internal/NativeSharedObject.cpp:668-714 | a change to a region by whoever has its lock keeps every other participant's half-done work and handle sound |
| `SharedRegion.HandleKeepsInv` | src/crossbyte/ipc/_internal/NativeSharedObject.cpp:668-714 | a handle given out for a ready region keeps the invariant |
| `SharedRegion.ShmOpenKeepsInv` | src/crossbyte/ipc/_internal/NativeSharedObject.cpp:612-667 | opening the name, or making a new region under it, keeps the invariant |
| `SharedRegion.TruncateKeepsInv` | src/crossbyte/ipc/_internal/NativeSharedObject.cpp:668-690 | sizing a region that has no size keeps the invariant, and a sized one is left as it is |
| `SharedRegion.StoreFieldKeepsInv` | src/crossbyte/ipc/_internal/NativeSharedObject.cpp:212-218 | storing the header's fields one at a time, in any order, with a death possible after each, keeps the invariant |
| `SharedRegion.CopyInKeepsInv` | src/crossbyte/ipc/_internal/NativeSharedObject.cpp:787-813 | a byte of a write's copy keeps the invariant |
| `SharedRegion.CopyOutKeepsInv` | src/crossbyte/ipc/_internal/NativeSharedObject.cpp:822-852 | a byte of a read's copy is a byte of the register's value |
| `SharedRegion.FinishReadKeepsInv` | src/crossbyte/ipc/_internal/NativeSharedObject.cpp:822-852 | a finished read answers exactly the register's value |
| `SharedRegion.ClearKeepsInv` | src/crossbyte/ipc/_internal/NativeSharedObject.cpp:856-879 | a clear empties the register and nothing else |
| `SharedRegion.DieKeepsInv` | src/crossbyte/ipc/_internal/NativeSharedObject.cpp:787-852 | a death at any step leaves a region that is an old value, or one torn in the way the log says |
| `SharedRegion.OpenStepKeepsInv` | src/crossbyte/ipc/_internal/NativeSharedObject.cpp:612-714 | every step of an open keeps the invariant |
| `SharedRegion.LockStepKeepsInv` | src/crossbyte/ipc/_internal/NativeSharedObject.cpp:335-520 | every step of the locks, of the lock file or of the region's own, keeps the invariant |
| `SharedRegion.CallStepKeepsInv` | src/crossbyte/ipc/_internal/NativeSharedObject.cpp:787-927 | every step of write, read, clear, close, remove and death keeps the invariant |
| `SharedRegion.RunKeepsInv` | src/crossbyte/ipc/_internal/NativeSharedObject.cpp:612-927 | the invariant in every state of every run |
| `SharedRegion.AtomicRegister` | src/crossbyte/ipc/_internal/NativeSharedObject.cpp:787-879 | over every run, every read of a region answered exactly what the completed writes and clears before it left, and the payload in memory is that value whenever no write is half done |
| `SharedRegion.ReadsLastWrite` | src/crossbyte/ipc/_internal/NativeSharedObject.cpp:787-879 | a read reports the last write's bytes, or nothing after a clear |
| `SharedRegion.OneRoom` | src/crossbyte/ipc/_internal/NativeSharedObject.cpp:205-218 | all handles of one region have the same payload room, and its capacity is at least one and within that room |
| `SharedRegion.OpenNeverAlters` | src/crossbyte/ipc/_internal/NativeSharedObject.cpp:668-714 | no step of an open, whatever size it asks for, alters a region that anyone has a handle on or has written |
| `TornWrites.TearHarmlessIff` | src/crossbyte/ipc/_internal/NativeSharedObject.cpp:787-813 | whatever bytes a dead writer had copied the value is unchanged, if and only if the data agrees with it as far as both go |
| `TornWrites.OldOrNewIff` | src/crossbyte/ipc/_internal/NativeSharedObject.cpp:787-813 | whatever bytes a dead writer had copied the value is the old or the new, if and only if the two agree as far as both go, or have one length and differ in one byte |
| `TornWrites.DeathTears` | src/crossbyte/ipc/_internal/NativeSharedObject.cpp:787-813 | over any run from the start of a write to its writer's death in the middle of it, with anything going on around, the region's log gains one torn entry of that data and nothing else, and data that agrees leaves the value as it was |
| `TornWrites.SurvivesEveryDeathIff` | src/crossbyte/ipc/_internal/NativeSharedObject.cpp:787-813 | from any reachable state, every way a writer can die in a write leaves the value as it was, if and only if the data agrees with the value there as far as both go |
| `TornWrites.NeverNeitherIff` | src/crossbyte/ipc/_internal/NativeSharedObject.cpp:787-813 | from any reachable state, every way a writer can die in a write leaves the old value or the new, if and only if the data agrees with the value there as far as both go, or has its length and differs from it in one byte |
| `TornRun.TornValueRead` | src/crossbyte/ipc/_internal/NativeSharedObject.cpp:787-852 | a run: an open, a write, a second write that dies one byte in, another open, and a read that answers neither value |
| `RegionOthers.OthersStep` | src/crossbyte/ipc/_internal/NativeSharedObject.cpp:787-879 | no step of another participant touches what is a participant's own, nor any region it is inside |
| `RegionOthers.OthersSteps` | src/crossbyte/ipc/_internal/NativeSharedObject.cpp:787-879 | the same over any number of steps of others |
| `RegionOthers.OneLock` | src/crossbyte/ipc/_internal/NativeSharedObject.cpp:338-358 | no participant ever has the locks of two regions |
| `RegionCalls.Machine.LockRegionOf` | src/crossbyte/ipc/_internal/NativeSharedObject.cpp:271-333 | asks for the lock once and then while it is busy: had, or not had and something was refused |
| `RegionCalls.Machine.OpenLockFile` | src/crossbyte/ipc/_internal/NativeSharedObject.cpp:421-436 | opens or makes the file at the path, or leaves nothing open |
| `RegionCalls.Machine.LockOpened` | src/crossbyte/ipc/_internal/NativeSharedObject.cpp:271-333 | locked, or the descriptor as it was, however often it has to ask |
| `RegionCalls.Machine.IsAtPath` | src/crossbyte/ipc/_internal/NativeSharedObject.cpp:404-409 | says yes only in a state where the locked file is the one at the path, and no also where it cannot tell |
| `RegionCalls.Machine.Attempt` | src/crossbyte/ipc/_internal/NativeSharedObject.cpp:453-472 | one attempt: the verified holder, or nothing open and nothing locked |
| `RegionCalls.Machine.TakeLockFile` | src/crossbyte/ipc/_internal/NativeSharedObject.cpp:451-475 | success is being the verified holder; failure leaves nothing open or locked, and comes only of a refusal or a file that moved |
| `RegionCalls.Machine.LockFileOfState` | src/crossbyte/ipc/_internal/NativeSharedObject.cpp:489-520 | the same through a kept descriptor, whose file may have gone from the path |
| `RegionCalls.Machine.LockForHandle` | src/crossbyte/ipc/_internal/NativeSharedObject.cpp:338-350 | inside the handle's region, or without any lock, by either kind of lock |
| `RegionCalls.Machine.UnlockForHandle` | src/crossbyte/ipc/_internal/NativeSharedObject.cpp:352-358 | without any lock, the region as it was left |
| `RegionCalls.Machine.Copy` | src/crossbyte/ipc/_internal/NativeSharedObject.cpp:808-809 | a copy of a byte at a time with others' steps between becomes one entry of the region's log |
| `RegionCalls.Machine.Gather` | src/crossbyte/ipc/_internal/NativeSharedObject.cpp:840-844 | a copy out of a byte at a time with others' steps between is one entry of the log, and the bytes of the buffer are the entry's |
| `RegionCalls.Machine.Write` | src/crossbyte/ipc/_internal/NativeSharedObject.cpp:787-813 | takes effect whole at one moment within the call, or not at all; it is refused just when the lock is not had or the payload does not fit, and always ends without the lock |
| `RegionCalls.Machine.ReadPayload` | src/crossbyte/ipc/_internal/NativeSharedObject.cpp:822-852 | answers from one moment within the call the length and, if they fit, the bytes; the header is never found broken; it fails just when the lock is not had |
| `RegionCalls.Machine.AnswersTheValue` | src/crossbyte/ipc/_internal/NativeSharedObject.cpp:822-852 | what a read answers is what the calls that had taken effect by its moment left in the region |
| `RegionCalls.Machine.ClearPayload` | src/crossbyte/ipc/_internal/NativeSharedObject.cpp:856-879 | empties the region at one moment within the call, or does nothing for want of the lock |
| `RegionCalls.Machine.InitialiseHeader` | src/crossbyte/ipc/_internal/NativeSharedObject.cpp:212-218 | stores the header's fields one at a time and then gives the handle |
| `RegionCalls.Machine.Open` | src/crossbyte/ipc/_internal/NativeSharedObject.cpp:529-714 | a handle on the region the name had at one moment within the call, or nothing left open or locked; every step on the way is a lock's or an open's, which alter no region in use |
| `RegionCalls.Machine.AbandonOpen` | src/crossbyte/ipc/_internal/NativeSharedObject.cpp:361-369 | an open that fails inside the lock ends with nothing |
| `RegionCalls.Machine.CloseObject` | src/crossbyte/ipc/_internal/NativeSharedObject.cpp:718-755 | ends with no handle and no lock file open |
| `RegionCalls.Machine.RemoveObject` | src/crossbyte/ipc/_internal/NativeSharedObject.cpp:888-927 | takes the name away at one moment within the call and answers whether a region had it; every region goes on as it was; it ends with nothing open or locked |
| `PipeNames.HashBytes` | src/crossbyte/ipc/_internal/NativeLocalConnection.cpp:901-906 | the 64-bit hash of the name's bytes, wrap-around included |
| `PipeNames.SanitizePipeName` | src/crossbyte/ipc/_internal/NativeLocalConnection.cpp:876-912 | the loop's name: plain ones as they are, others sanitized, cut and hashed |
| `PipeNames.SocketNameIsPlain` | src/crossbyte/ipc/_internal/NativeLocalConnection.cpp:876-912 | every name becomes a non-empty plain name within the budget, with no dot in it |
| `PipeNames.PathsApart` | src/crossbyte/ipc/_internal/NativeLocalConnection.cpp:915-959 | no name's socket path is any name's lock path, and two names share a socket path just when they share a lock path |
| `PipeNames.PlainNamesKeepTheirPaths` | src/crossbyte/ipc/_internal/NativeLocalConnection.cpp:876-912 | a plain name within the budget is its own socket name, and two of them share one just when they are one name |
| `PipeNames.PlainSharesWithHashed` | src/crossbyte/ipc/_internal/NativeLocalConnection.cpp:896-911 | a plain name shares a socket name with one that goes through the hash if and only if it is what is kept of that one, an underscore and the digits of its hash |
| `PipeNames.PlainTakesHashedPath` | src/crossbyte/ipc/_internal/NativeLocalConnection.cpp:896-911 | such a pair, with no two hashes alike |
| `PipeNames.HashedNamesShare` | src/crossbyte/ipc/_internal/NativeLocalConnection.cpp:896-911 | two names that go through the hash share a socket name if and only if their 64-bit hashes agree and what is kept of their sanitized forms does |
| `Listeners.StepKeepsInv` | src/crossbyte/ipc/_internal/NativeLocalConnection.cpp:957-1052 | no step breaks the invariant; a socket file unlinked is the unlinker's own or one nobody listens on; no step of another's moves a live listener's socket |
| `Listeners.OwnOrDead` | src/crossbyte/ipc/_internal/NativeLocalConnection.cpp:993-1052 | what is at the path when a participant is past the lock is its own, or nobody listens on it |
| `Listeners.RunKeepsInv` | src/crossbyte/ipc/_internal/NativeLocalConnection.cpp:957-1296 | the invariant in every state of every run of listens, closes, failures, deaths and cleaners |
| `Listeners.OneListener` | src/crossbyte/ipc/_internal/NativeLocalConnection.cpp:993-1052 | at most one live listener of a name at every moment of every run, and the socket at the path is its own |
| `Listeners.BindFindsThePathFree` | src/crossbyte/ipc/_internal/NativeLocalConnection.cpp:1034-1037 | after the unlink nothing is at the path until this participant binds |
| `Listeners.NeverUnlinksALiveSocket` | src/crossbyte/ipc/_internal/NativeLocalConnection.cpp:1263-1296 | over every run, an unlinked socket is the unlinker's own or a dead listener's |
| `Listeners.UnlinksItsOwnLock` | src/crossbyte/ipc/_internal/NativeLocalConnection.cpp:1263-1296 | over every run, a lock file unlinked is the one the unlinker holds, which is the one at the path |
| `ListenCalls.OthersStep` | src/crossbyte/ipc/_internal/NativeLocalConnection.cpp:957-1052 | while a participant has the name's lock no step of another brings a socket to the path |
| `ListenCalls.Machine.LockName` | src/crossbyte/ipc/_internal/NativeLocalConnection.cpp:957-982 | the verified holder of the name, in eight attempts, or nothing left open; failing only for a refusal, a busy lock or a file that moved |
| `ListenCalls.Machine.BindSocket` | src/crossbyte/ipc/_internal/NativeLocalConnection.cpp:1034-1037 | the path the holder swept is still free when it binds |
| `ListenCalls.Machine.Listen` | src/crossbyte/ipc/_internal/NativeLocalConnection.cpp:1020-1043 | a live listener, or the socket closed again, the lock still held |
| `ListenCalls.Machine.CreateInboundPipe` | src/crossbyte/ipc/_internal/NativeLocalConnection.cpp:993-1052 | the one live listener of the name, or nothing left open or locked |
| `ListenCalls.Machine.Close` | src/crossbyte/ipc/_internal/NativeLocalConnection.cpp:1263-1296 | the listener's socket and lock file unlinked, in this order, while it has the lock; nothing left |
| `BatchSender.GsoRun` | src/crossbyte/_internal/net/NativeSocketAddress.cpp:659-681 | the longest run: it lies end to end in one chunk, to one target, in datagrams of one length but the last, within the limits, and the next datagram would not go on from it; no sum it makes leaves 32 bits |
| `BatchSender.RunLies` | src/crossbyte/_internal/net/NativeSocketAddress.cpp:659-681 | a run's bytes are a contiguous stretch inside its chunk |
| `BatchSender.CutIsTheRun` | src/crossbyte/_internal/net/NativeSocketAddress.cpp:659-681 | one send of a run, cut by the kernel every segment bytes, is exactly the run's datagrams, each with its own bytes and target |
| `BatchSender.CheckBatch` | src/crossbyte/_internal/net/NativeSocketAddress.cpp:708-724 | accepts exactly the batches whose every span lies in its chunk |
| `BatchSender.SendRun` | src/crossbyte/_internal/net/NativeSocketAddress.cpp:736-782 | a run goes whole or not at all, its segment size fits in 16 bits, and a refusal is remembered |
| `BatchSender.Gather` | src/crossbyte/_internal/net/NativeSocketAddress.cpp:784-804 | at least one and at most a batch's worth of the next datagrams, in order |
| `BatchSender.SendSome` | src/crossbyte/_internal/net/NativeSocketAddress.cpp:784-820 | one sendmmsg puts on the wire exactly the next datagrams it counts |
| `BatchSender.SendBatch` | src/crossbyte/_internal/net/NativeSocketAddress.cpp:706-851 | for every answer of the kernel, what goes out is exactly items first up to first + sent, in order, each with its own bytes and target; it falls short only where a send failed or stopped short |
| `CommandLine.AppendQuoted` | src/crossbyte/sys/_internal/NativeSpawn.cpp:188-212 | appends the argument's quoted form |
| `CommandLine.EscapeAll` | src/crossbyte/sys/_internal/NativeSpawn.cpp:193-211 | the loop's backslash count gives the recursive escaping |
| `CommandLine.BackslashesRead` | src/crossbyte/sys/_internal/NativeSpawn.cpp:181-212 | a run of backslashes is only counted by the reader, whatever follows |
| `CommandLine.EscapedRead` | src/crossbyte/sys/_internal/NativeSpawn.cpp:188-212 | what is between the quotes reads back as the argument, held-back backslashes included |
| `CommandLine.PlainRead` | src/crossbyte/sys/_internal/NativeSpawn.cpp:188-192 | an argument with nothing to protect reads back as itself |
| `CommandLine.QuotedRead` | src/crossbyte/sys/_internal/NativeSpawn.cpp:188-212 | one argument, quoted or plain, reads back exactly and ends where it should |
| `CommandLine.JoinedRead` | src/crossbyte/sys/_internal/NativeSpawn.cpp:292-296 | a list of arguments reads back exactly, empty ones included |
| `CommandLine.NameRead` | src/crossbyte/sys/_internal/NativeSpawn.cpp:287-292 | the program's name, without a quote in it, reads back exactly |
| `CommandLine.RoundTrip` | src/crossbyte/sys/_internal/NativeSpawn.cpp:286-296 | the whole line reads back as the program and its arguments, under each reading of a pair of quotes |
| `CommandLine.AppendAll` | src/crossbyte/sys/_internal/NativeSpawn.cpp:293-296 | the loop over the arguments appends each after a blank |
| `CommandLine.Assemble` | src/crossbyte/sys/_internal/NativeSpawn.cpp:278-298 | refuses exactly an empty program or one with a quote in its name, and otherwise makes a line that reads back as the program and every argument |
| `PostgresInts.BytesInvert` | src/crossbyte/db/postgres/_internal/NativePostgres.cpp:314-329 | a number below 256^n is recovered from its n bytes |
| `PostgresInts.FromBytesInverts` | src/crossbyte/db/postgres/_internal/NativePostgres.cpp:338-349 | n bytes are recovered from the number they make |
| `PostgresInts.TakeLittle` | src/crossbyte/db/postgres/_internal/NativePostgres.cpp:314-349 | takeInt inverts putInt, negative numbers included, and leaves the rest |
| `PostgresInts.TakeLittleU` | src/crossbyte/db/postgres/_internal/NativePostgres.cpp:323-349 | takeInt inverts putUInt up to the sign, which is recovered |
| `PostgresInts.TakenFromTheFront` | src/crossbyte/db/postgres/_internal/NativePostgres.cpp:338-349 | what takeInt takes is what putInt would have written |
| `PostgresEncoder.ParseAffectedRows` | src/crossbyte/db/postgres/_internal/NativePostgres.cpp:287-306 | the affected count is the decimal value of the leading digits, or 2^64 - 1 where that is more, for any text or none |
| `PostgresEncoder.DigitsLongest` | src/crossbyte/db/postgres/_internal/NativePostgres.cpp:287-306 | the digits read are the longest run of digits at the front |
| `PostgresEncoder.BlockSize` | src/crossbyte/db/postgres/_internal/NativePostgres.cpp:443-467 | the size added up is exactly the length of the block's encoding |
| `PostgresEncoder.BlockSized` | src/crossbyte/db/postgres/_internal/NativePostgres.cpp:443-467 | an encoding's length is the sum of its parts |
| `PostgresEncoder.PutUInt` | src/crossbyte/db/postgres/_internal/NativePostgres.cpp:323-329 | stores the four bytes at the cursor, inside the block, and nothing else |
| `PostgresEncoder.PutInt` | src/crossbyte/db/postgres/_internal/NativePostgres.cpp:314-320 | the same for a signed number |
| `PostgresEncoder.PutBytes` | src/crossbyte/db/postgres/_internal/NativePostgres.cpp:331-336 | stores the bytes at the cursor, inside the block |
| `PostgresEncoder.PutNames` | src/crossbyte/db/postgres/_internal/NativePostgres.cpp:486-491 | stores every column name, a missing one as empty |
| `PostgresEncoder.PutRow` | src/crossbyte/db/postgres/_internal/NativePostgres.cpp:495-508 | stores a row's cells, NULL apart from empty |
| `PostgresEncoder.EncodeResult` | src/crossbyte/db/postgres/_internal/NativePostgres.cpp:443-513 | fills the block it sized exactly, with the encoding of the result, or with an error block when that would be longer than an Int can say |
| `PostgresEncoder.MakeErrorBlock` | src/crossbyte/db/postgres/_internal/NativePostgres.cpp:351-359 | the error block of a message |
| `PostgresResult.NamesRead` | src/crossbyte/db/postgres/_internal/PostgresWire.hx:213-217 | the decoder reads back every column name |
| `PostgresResult.CellsRead` | src/crossbyte/db/postgres/_internal/PostgresWire.hx:102-109 | the decoder reads back a row, NULL, empty and embedded NULs included |
| `PostgresResult.RowsRead` | src/crossbyte/db/postgres/_internal/PostgresWire.hx:96-119 | the decoder reads back every row |
| `PostgresResult.CountsRead` | src/crossbyte/db/postgres/_internal/PostgresWire.hx:204-212 | the two halves of the affected count read back as one number, before it is a Float, and so do the object id and the number of columns |
| `PostgresResult.ErrorRead` | src/crossbyte/db/postgres/_internal/PostgresWire.hx:192-198 | an error block reads back as its message |
| `PostgresResult.BlockFits` | src/crossbyte/db/postgres/_internal/NativePostgres.cpp:443-476 | in a block an Int can measure every length inside it is one too |
| `PostgresResult.RoundTrip` | src/crossbyte/db/postgres/_internal/PostgresWire.hx:96-259 | but for the count's becoming a Float, the decoder recovers the whole result from its encoding if and only if it is not one of rows without columns, which it refuses |
| `PostgresResult.RowsWithoutColumnsRefused` | src/crossbyte/db/postgres/_internal/PostgresWire.hx:219-237 | a result of two rows of no columns, which the encoder writes and the decoder refuses |
| `PostgresDecoder.ReceivedIff` | src/crossbyte/db/postgres/_internal/PostgresWire.hx:96-259 | decodeResult gives back the whole result if and only if it has columns or no rows and its count is one a Float holds; rows without columns are refused, and any other count comes back rounded and all else as it was |
| `PostgresDecoder.CountRounded` | src/crossbyte/db/postgres/_internal/PostgresWire.hx:204-206 | an affected count of 2^53 + 1 comes back as 2^53 |
| `PostgresResult.BlocksDiffer` | src/crossbyte/db/postgres/_internal/NativePostgres.cpp:443-513 | two results have one block just when they are one result |
| `PostgresParameters.ReadsExactly` | src/crossbyte/db/postgres/_internal/NativePostgres.cpp:373-438 | the blocks accepted are exactly those that start with a well-formed encoding, and what is read is what is encoded |
| `PostgresParameters.ParametersRoundTrip` | src/crossbyte/db/postgres/_internal/PostgresWire.hx:59-88 | the bound values encoded for the bridge come back with their format, NULL apart from empty |
| `PostgresParameters.TakeIntAt` | src/crossbyte/db/postgres/_internal/NativePostgres.cpp:338-349 | reads four bytes at the cursor if they are there, never outside the block |
| `PostgresParameters.TakeRaw` | src/crossbyte/db/postgres/_internal/NativePostgres.cpp:397-427 | one parameter's format, length and extent, refused if it would leave the block, with no 32-bit overflow |
| `PostgresParameters.Store` | src/crossbyte/db/postgres/_internal/NativePostgres.cpp:406-426 | adds a NUL-terminated slice of its own to the arena, or none for NULL, and keeps those before |
| `PostgresParameters.ReadSlots` | src/crossbyte/db/postgres/_internal/NativePostgres.cpp:388-428 | the loop over the parameters accepts just what the reader does and never passes the arena's reservation |
| `PostgresParameters.ParseParameters` | src/crossbyte/db/postgres/_internal/NativePostgres.cpp:373-438 | accepts exactly the well-formed blocks and delivers every value in its own NUL-terminated slice of the arena, NULL just where the length is negative, the arena within its reservation |
| `KvModel.RevisionStep` | tests/crossbyte/db/fakepq/fake_libpq.c:449-621 | a successful write or delete raises its key's revision by one; anything else leaves every record as it was or, by a purge, gone |
| `KvModel.RevisionCountsWrites` | tests/crossbyte/db/fakepq/fake_libpq.c:449-512 | between two moments with no purge of the key its revision rises by exactly its successful writes |
| `KvModel.LastWriteShows` | tests/crossbyte/db/fakepq/fake_libpq.c:449-512 | until a purge, a key is a tombstone just when the last successful write of it was a delete |
| `KvModel.OvertakenIff` | src/crossbyte/db/kv/PostgresKVStore.hx:196-220 | after a write that took a key past a revision, a conditional write naming that revision succeeds just when it is a create and the last write was a delete |
| `KvModel.OneWinner` | docs/data.md:88-90 | of the conditional writes naming one revision of a key, at most one succeeds, until a purge, when the revision is not 0; at 0, a create's, a second one succeeds if and only if the last write of the key between was a delete |
| `KvModel.StaleAfterDelete` | docs/data.md:110-112 | a revision other than 0 read before a delete matches nothing after it, re-created or not, until a purge; 0 matches if and only if the last write was a delete |
| `KvModel.CreateWinsTwice` | src/crossbyte/db/kv/PostgresKVStore.hx:196-207 | a create, a delete and a create: two conditional writes at revision 0, both successful, with no purge |
| `KvModel.PurgeForgetsRevisions` | tests/crossbyte/db/fakepq/fake_libpq.c:604-621 | a purge does let a revision from before it match again |
| `KvModel.LessTrichotomy` | tests/crossbyte/db/fakepq/fake_libpq.c:363-380 | the key order is total and strict |
| `KvModel.LessTransitive` | tests/crossbyte/db/fakepq/fake_libpq.c:363-380 | the key order is transitive |
| `KvTable.PlaceFinds` | tests/crossbyte/db/fakepq/fake_libpq.c:363-380 | a key's place in the sorted array holds it just when the map has it |
| `KvTable.ReplaceKeeps` | tests/crossbyte/db/fakepq/fake_libpq.c:449-512 | a record replaced under its own key keeps the array sorted and a refinement of the map |
| `KvTable.InsertKeeps` | tests/crossbyte/db/fakepq/fake_libpq.c:382-394 | a record inserted at its place keeps the array sorted and a refinement of the map |
| `KvTable.PurgeKeeps` | tests/crossbyte/db/fakepq/fake_libpq.c:604-621 | what a purge keeps is sorted and refines the purged map |
| `KvTable.PurgeCounts` | tests/crossbyte/db/fakepq/fake_libpq.c:604-621 | the number purged is the number of keys the map loses |
| `KvTable.VisitedInRange` | tests/crossbyte/db/fakepq/fake_libpq.c:545-602 | what the scan's loops visit is the first fetch records of the range |
| `KvTable.RangeIsExact` | tests/crossbyte/db/fakepq/fake_libpq.c:545-602 | a range's records are exactly the map's records in it, in key order |
| `KvTable.RowIs` | tests/crossbyte/db/fakepq/fake_libpq.c:569-599 | each row carries its record, its place and the running sum of bytes up to it |
| `KvTable.PastTheBudget` | tests/crossbyte/db/fakepq/fake_libpq.c:594-598 | once the page budget is passed no later row carries a value |
| `KvTable.NextPage` | tests/crossbyte/db/fakepq/fake_libpq.c:545-602 | a scan from the key of record n goes on with exactly record n and those after it |
| `KvTable.CutRange` | tests/crossbyte/db/fakepq/fake_libpq.c:545-602 | a range cut at any key is the two ranges one after the other: each record once |
| `KvStore.Table.Find` | tests/crossbyte/db/fakepq/fake_libpq.c:363-380 | binary search finds the key's place, and says whether the map has it |
| `KvStore.Table.Insert` | tests/crossbyte/db/fakepq/fake_libpq.c:382-394 | grows and shifts the array, and the map gains the record |
| `KvStore.Table.Replace` | tests/crossbyte/db/fakepq/fake_libpq.c:449-477 | overwrites in place, and the map's record is replaced |
| `KvStore.Table.KvPut` | tests/crossbyte/db/fakepq/fake_libpq.c:449-477 | does to the array what a put does to the map, and answers the same |
| `KvStore.Table.KvUpdate` | tests/crossbyte/db/fakepq/fake_libpq.c:479-494 | does what a conditional write does to the map, and answers the same |
| `KvStore.Table.KvDelete` | tests/crossbyte/db/fakepq/fake_libpq.c:496-512 | does what a delete does to the map, and answers the same |
| `KvStore.Table.KvGet` | tests/crossbyte/db/fakepq/fake_libpq.c:514-543 | answers the map's record unless there is none or it is a tombstone, with its value if that is not too long |
| `KvStore.Table.KvScan` | tests/crossbyte/db/fakepq/fake_libpq.c:545-602 | answers the rows of the first fetch records in the range |
| `KvStore.Table.KvPurge` | tests/crossbyte/db/fakepq/fake_libpq.c:604-621 | compacts in place and does what a purge does to the map |
| `KvStore.Table.Restore` | tests/crossbyte/db/fakepq/fake_libpq.c:339-360 | puts a copied table back |
| `KvStore.Table.Execute` | tests/crossbyte/db/fakepq/fake_libpq.c:449-621 | every statement keeps the array sorted and refining the map, and answers as the map does |
| `KvStore.ShiftIn` | tests/crossbyte/db/fakepq/fake_libpq.c:382-394 | the array with the record at its place and the rest moved up by one |
| `KvStore.Compact` | tests/crossbyte/db/fakepq/fake_libpq.c:604-621 | the array compacted in place is the filtered one, and the count is of those dropped |
| `KvTransactions.AllSettled` | tests/crossbyte/db/fakepq/fake_libpq.c:650-676 | in every reachable state a connection holds a copy just while it is in a transaction |
| `KvTransactions.SnapshotStays` | tests/crossbyte/db/fakepq/fake_libpq.c:650-676 | the copy BEGIN made is the table of that moment until the transaction ends, whatever anyone does |
| `KvTransactions.AllOrNothing` | tests/crossbyte/db/fakepq/fake_libpq.c:661-722 | ROLLBACK, COMMIT of an aborted transaction, a failing COMMIT and PQfinish leave the table of the BEGIN; any other COMMIT leaves the table as it is, and only that one answers COMMIT |
| `KvTransactions.TableIsReplayed` | tests/crossbyte/db/fakepq/fake_libpq.c:678-722 | with one writer, the table in a transaction is the one it began with under the writes it took, in order |
| `KvTransactions.FrozenWhileAborted` | tests/crossbyte/db/fakepq/fake_libpq.c:678-722 | with one writer, nothing changes the table while its transaction is aborted, and only its end gets it out |
| `FakeServer.Server.EndKv` | tests/crossbyte/db/fakepq/fake_libpq.c:661-676 | drops the copy, putting the table back first when asked to |
| `FakeServer.Server.Commit` | tests/crossbyte/db/fakepq/fake_libpq.c:691-706 | the server's COMMIT is the model's, failing ones included |
| `FakeServer.Server.Statement` | tests/crossbyte/db/fakepq/fake_libpq.c:714-799 | every other statement is the model's, refused in an aborted transaction |
| `FakeServer.Server.Run` | tests/crossbyte/db/fakepq/fake_libpq.c:678-800 | every call of the server, over its array and copied arrays, is a step of the transaction model and gives its answer |
| `DtlsTable.StepKeepsInv` | src/crossbyte/net/rtc/_internal/NativeDtlsSession.cpp:98-164 | no step of any thread's open, close or lookup breaks the agreement of the caches with the shared map |
| `DtlsTable.RunKeepsInv` | src/crossbyte/net/rtc/_internal/NativeDtlsSession.cpp:98-164 | the agreement in every state of every run in which threads use only handles they were given |
| `DtlsTable.ClosesFit` | src/crossbyte/net/rtc/_internal/NativeDtlsSession.cpp:98-112 | every handle given is of a session in the map, one closed and counted, or the one being closed, so closes stay below 2^31 and never bring the 32-bit count round |
| `DtlsTable.FindIsExact` | src/crossbyte/net/rtc/_internal/NativeDtlsSession.cpp:143-164 | over every run in which threads use only handles they were given, a lookup, cached or not, answers exactly what the shared map says then: never a session freed or being closed, never none for one that is there |
| `DtlsTable.GuessedHandleStaysNull` | src/crossbyte/net/rtc/_internal/NativeDtlsSession.cpp:143-164 | a handle looked up before open returned it stays null after: why runs are of handles given |
| `DtlsCalls.Threads.Find` | src/crossbyte/net/rtc/_internal/NativeDtlsSession.cpp:143-164 | answers what the shared map says at that moment, from memory or not |
| `DtlsCalls.Threads.Open` | src/crossbyte/net/rtc/_internal/NativeDtlsSession.cpp:415-418 | a positive handle never given before, in the map and the thread's own; none once all have been given |
| `DtlsCalls.Threads.Close` | src/crossbyte/net/rtc/_internal/NativeDtlsSession.cpp:421-446 | out of the map, then counted, then freed: nothing finds it afterwards, and the count has risen |
| `DtlsSession.Follows` | src/crossbyte/net/rtc/_internal/NativeDtlsSession.cpp:448-612 | what the calls may ask of mbedTLS next keeps its history disciplined |
| `DtlsSession.Session.Ask` | src/crossbyte/net/rtc/_internal/NativeDtlsSession.cpp:168-200 | a call of mbedTLS takes datagrams from the front of the inbound queue and puts records at the back of the outbound one |
| `DtlsSession.Session.NotifyClose` | src/crossbyte/net/rtc/_internal/NativeDtlsSession.cpp:448-465 | asks for the goodbye just when established, and closes |
| `DtlsSession.Session.Feed` | src/crossbyte/net/rtc/_internal/NativeDtlsSession.cpp:467-478 | queues a datagram that is not empty |
| `DtlsSession.Session.Step` | src/crossbyte/net/rtc/_internal/NativeDtlsSession.cpp:480-526 | a closed session is left alone; a handshake comes first, and is started over when a cookie is asked for; then every message readable is queued; a session ends just on a handshake's answer that is no wait, or a read's that is neither a wait nor 0, and that answer is kept as its error |
| `DtlsSession.Session.DrainPlaintext` | src/crossbyte/net/rtc/_internal/NativeDtlsSession.cpp:265-292 | queues every message mbedTLS gives, in order, and closes on any answer but no more to read |
| `DtlsSession.Session.Pending` | src/crossbyte/net/rtc/_internal/NativeDtlsSession.cpp:528-536 | the length of the next record produced and not taken |
| `DtlsSession.Session.Take` | src/crossbyte/net/rtc/_internal/NativeDtlsSession.cpp:538-560 | hands over the next record produced, whole, or leaves it where it is |
| `DtlsSession.Session.Write` | src/crossbyte/net/rtc/_internal/NativeDtlsSession.cpp:562-578 | asks mbedTLS to write just when established, and keeps a failure as the error |
| `DtlsSession.Session.Available` | src/crossbyte/net/rtc/_internal/NativeDtlsSession.cpp:580-588 | the length of the next message decrypted and not handed over |
| `DtlsSession.Session.ReadNext` | src/crossbyte/net/rtc/_internal/NativeDtlsSession.cpp:590-612 | hands over the next message decrypted, whole, closed or not, or leaves it where it is |
| `ReplicationRing.ShipsHave` | tests/perf/replication/proto-go/main.go:343-362 | a message carries the patch of every ship that changed but the client's own |
| `ReplicationRing.Client.ApplyFrame` | tests/perf/replication/proto-go/main.go:376-407 | a frame built from the base frame and the patches shows the tick |
| `ReplicationRing.Client.Receive` | tests/perf/replication/proto-go/main.go:375-407 | after a message of tick t its slot shows tick t, and every slot of the last window still shows its own tick |
| `ReplicationRing.Client.Replay` | tests/perf/replication/proto-go/main.go:336-408 | after any number of ticks, every slot of the last window shows its tick, for any channel that applies what it diffs |
| `Replication.OwnChannelIsLawful` | tests/perf/replication/proto-go/main.go:88-227 | diffing and applying the own ship are a lawful channel |
| `Replication.ShipChannelIsLawful` | tests/perf/replication/proto-go/main.go:127-254 | diffing and applying another ship are a lawful channel |
| `Replication.Bench` | tests/perf/replication/proto-go/main.go:336-408 | for every recorded trace and every client, the ring after the last tick matches the server for its own ship and all others, at each of the last 32 ticks |
| `WebSocketFrames.MaskedTwice` | ci/browser/run.js:123-126 | unmasking inverts masking |
| `WebSocketFrames.WriteFrame` | tests/load/churn-client.js:469-479 | writes a masked frame for every payload below 65,536 bytes, and refuses longer ones |
| `WebSocketFrames.FrameParsed` | ci/browser/run.js:97-138 | the endpoint's parser reads back the opcode and payload of a written frame, and leaves what follows |
| `WebSocketFrames.ParseMore` | ci/browser/run.js:97-138 | a frame that parses, parses the same with more bytes after it |
| `FrameStreams.ParseAllMore` | ci/browser/run.js:97-138 | bytes that come later only add frames after those already parsed |
| `FrameStreams.Endpoint.OnData` | ci/browser/run.js:97-138 | a chunk's arrival leaves what parsing all the chunks so far leaves, and has written the answers up to the first close and nothing after it |
| `FrameStreams.Drain` | ci/browser/run.js:103-137 | the loop takes every whole frame up to the first that stops it, and answers each |
| `FrameStreams.ChunksDontMatter` | ci/browser/run.js:97-138 | for every way of cutting the stream, the frames up to the first close are those of the stream in one piece |
| `FrameStreams.PrintedRead` | ci/browser/run.js:97-138 | printed frames parse back as those frames, up to the first close |
| `WebSocketEcho.EchoReaderIsSure` | ci/browser/run.js:97-138 | the endpoint's parser never changes its mind when more bytes come |
| `WebSocketEcho.TakeFrame` | ci/browser/run.js:103-127 | the parser's arithmetic, and the unmasking in place, is the frame grammar's |
| `WebSocketEcho.ReadFrameMore` | tests/load/churn-client.js:453-466 | the client's parser never changes its mind when more bytes come, skipped control frames included |
| `WebSocketEcho.ClientReaderIsSure` | tests/load/churn-client.js:453-466 | the same as a reader of streams |
| `WebSocketEcho.EchoFrameRead` | ci/browser/run.js:76-81 | by itself, echoFrame's frame is read back by the client if and only if its payload is below 65,536 bytes |
| `WebSocketEcho.ParsedAreWritable` | ci/browser/run.js:103-127 | no payload the endpoint parses is longer than echoFrame's two bytes of length can say |
| `WebSocketEcho.EndpointReadsFrames` | tests/load/churn-client.js:469-479 | however the stream is cut, the endpoint parses exactly the frames the client wrote, up to the first close |
| `WebSocketEcho.ClientReadsEchoes` | tests/load/churn-client.js:453-466 | for any bytes that come to the endpoint in any chunks, the client, with the answers cut anywhere, reads exactly the data frames before the first close, and then the goodbye if there was a close |
| `WebSocketEcho.AnsweredIsEchoes` | ci/browser/run.js:134-136 | what the endpoint writes is the echoes of the data frames before the first close, in order, and then the goodbye |
| `SpawnDescriptors.Kernel.Close` | src/crossbyte/sys/_internal/NativeSpawn.cpp:107-129 | a close is of a descriptor open for the child, which then is not |
| `SpawnDescriptors.MakePipes` | src/crossbyte/sys/_internal/NativeSpawn.cpp:485-488 | every pipe made is accounted for, whichever of the four could not be |
| `SpawnDescriptors.ClosePipes` | src/crossbyte/sys/_internal/NativeSpawn.cpp:252-256 | closes every end made so far, each once |
| `SpawnDescriptors.HandOver` | src/crossbyte/sys/_internal/NativeSpawn.cpp:543-556 | closes the child's ends and moves the parent's three, each to its own field, into the child state |
| `SpawnDescriptors.Start` | src/crossbyte/sys/_internal/NativeSpawn.cpp:479-571 | whichever step fails, nothing made is left open; on success what is left open is exactly the three ends the state holds |
| `SpawnDescriptors.Child.CloseInput` | src/crossbyte/sys/_internal/NativeSpawn.cpp:648-662 | closes the input if it is open, once |
| `SpawnDescriptors.Child.CloseAll` | src/crossbyte/sys/_internal/NativeSpawn.cpp:107-129 | closes what is still open, each once, and marks it |
| `SpawnDescriptors.Live` | src/crossbyte/sys/_internal/NativeSpawn.cpp:736-740 | over any later sequence of closings every descriptor is closed exactly once by the finalizer at the latest |
| `Affected.Search` | ci/affected.js:127-139 | from one changed file, the test cases chosen are exactly those with a path to it through nodes that are neither test cases nor harness files |
| `Affected.Visit` | ci/affected.js:131-138 | visiting a node's dependants keeps the worklist's invariant and adds only what is new |
| `Affected.ClosedHasPath` | ci/affected.js:127-139 | a set closed under the search's step holds the end of every path |
| `Affected.Select` | ci/affected.js:113-140 | for every graph, cyclic or not, exactly the test cases that are changed Haxe files still there, or reached from one |

## Left out

- The clock: a deadline is a number of further polls, and EINTR, errno text, sleeping and refreshing a file's times are not modelled.
- Ownership and permission checks on files and directories: an open may fail, for whatever reason.
- Windows: pipes, doorbells, mutexes, security descriptors and mappings. Only its command line is modelled.
- `native_sharedObjectGetCapacity`, which reads one number under the lock.
- A copy is made in order, byte by byte; that its bytes may be copied in any order is part of the system, not of the methods.
- The collisions of the name hash: distinct names that need hashing are only told apart by their hashes.
- Address conversion in the batch sender, which can throw, and its loop of sendto for systems other than Linux, which sends one datagram after another.
- PostgresWire's `decodeRows` and `eachRow`, its hexadecimal form of bytea, and decoding bytes as UTF-8: names and values are bytes.
- The decoder and the encoder of parameters in PostgresWire are functions on sequences, not loops over a cursor.
- The fake server's parsing of statements and their numbers (atoi, atoll, atof), its locks and the failure of malloc.
- Overflow of revisions (64 bits), and of inode and socket numbers: unbounded here. A process that has given out every positive session handle gives no more, where the source's counter is undefined.
- The lookup at the head of each session call, and its answer when there is no session: a session's methods start from the session found.
- mbedTLS itself, certificates and the handshake timer.
- Marshalling of protobuf messages: a message arrives as it was sent. Views are values, so two slots never share one, and clients are taken one at a time, which share nothing.
- The client's pongs, and a 64-bit frame length beyond what a JavaScript number holds exactly.
- What the forked child does before exec, and killing and waiting for it.
- Test selection's choice between no run, a full run and a selected one, and the names of the classes.
- The Haxe sources of the framework other than PostgresWire, the wrappers over libsodium and BLAKE3, the benchmarks, generated code and pages.
