# Verified model of the cargo-remote sync engine

cargo-remote copies a project to a server, builds it there and copies results back.
This project models the parts of it that have to be right for the copies to be right,
and proves them right:

- the rsync engine (`src/rsync.rs`): rolling checksum, block signatures, the greedy
  delta encoder with its hash index, and the bounds-checked patch interpreter;
- the agent protocol (`src/agent.rs`): framing over chunked channels, the sync planner,
  the agent's file operations, and the two conversations (sync and fetch) as pairs of
  peers over FIFO channels;
- the ssh configuration scan (`src/sshcfg.rs`): glob matching and Host blocks;
- the printer of remote shell lines (`src/runner.rs`), against a parser of the POSIX
  shell language (POSIX.1-2017, Shell Command Language, sections 2.2.1, 2.2.2 and 2.3).

## How the pieces fit

| files | contents |
|---|---|
| `Bytes`, `RollingChecksum`, `Signatures`, `DeltaOps`, `DeltaEncoder` | the delta engine |
| `Framing`, `WireSizes` | frames, headers, and what fits into them |
| `Paths`, `FileTree`, `SyncPlan` | wire paths, the tree below a sync root and the operations on it, listing and plan |
| `Convergence`, `Safety`, `Limits` | what a sync does to the remote tree, what holds when it is cut short, and which hypotheses it needs |
| `Session` | two deterministic peers over FIFO channels: handing messages over at once is refined by every interleaving |
| `AgentPeer`, `SyncProtocol`, `FetchProtocol`, `Repetition`, `SigOrder` | the agent and both clients as peers, and the results about whole conversations |
| `AgentFs`, `AgentServer`, `SyncClient`, `FetchClient` | the same code as it is written, loops over state that is updated in place, proved to follow the peers |
| `EndToEnd` | those loops fed with each other's output |
| `Glob`, `HostConfig` | ssh configuration |
| `Shell`, `ShellQuote`, `RemoteLine` | the shell line printer and its inverse |

The strong hash is a parameter (`StrongHash`), about which nothing is assumed. Where
collisions matter, the hypothesis is that the hash tells apart the finitely many blocks
and windows that are compared (`WindowsFaithful`, `BlocksFaithful`), and where they occur
the outcome is stated exactly (`DeltaRoundTripExact`, `CollisionBreaksRoundTrip`).

A sync job has a local and a remote tree, maps from paths to `File(content, mtime)`, `Dir`
or `Link(target)`. The hypotheses of convergence are collected in `Convergence.Setup`.
Each has a result that says what happens without it:

| hypothesis | without it |
|---|---|
| no backslash in a name that the walk reports | `SyncPlan.TruthfulExactly`: the listing is then not the tree; `Limits.BackslashEndsSync` is such a sync |
| a directory never stands against a file or link | `Limits.KindsDecide`: the PUT frames then do not go through |
| links whose target the agent accepts, and a root to put them into | `Limits.PutLinkExact`: exactly when a link is made |
| files that are read are not dated before 1970 | `Limits.SendableExact`: exactly when a listed file can be read |
| files that are sent fit into a frame, whole or as a delta | `Framing.MaxDataExact`, `Framing.DataFrameExact`: exactly which frames are read; the others are refused |
| no collision between the two versions of a file that differs | `DeltaEncoder.DeltaRoundTripExact`, `DeltaEncoder.CollisionBreaksRoundTrip`, `Signatures.SignatureFaithful` |
| truthful length and time on unsent files over VERIFY_MAX | `Limits.TrustDecides`: below that size nothing need be trusted, above it everything |

An effect that would go through a symbolic link is outside the tree (`Outside`) and never
occurs under these hypotheses.

## Where code and documentation differ, or the code surprises

- The comment at `src/sshcfg.rs:42-44` lets the first matching Host block win; the code
  takes the first StrictHostKeyChecking line of any matching block, also of a later one.
- The walk turns every backslash in a name into a slash, on unix too, where it is an
  ordinary character. A file called `a\b` is listed as `a/b`, and a sync that has to send it
  ends with an error because there is no such file; an extra `a\b` at the remote is never
  deleted; an empty directory `a\b` becomes `a/b`; `target\x` counts as excluded by `target`
  (`SyncPlan.TruthfulExactly`, `Limits.ListedElsewhere`, `Paths.ExclusionOf`).
- `glob_match` treats a `*` in the subject as a literal before it treats a `*` in the
  pattern as a star; it is right exactly for subjects without `*` (`Glob.GlobExactSubjects`).
- The agent's reader drops one to three leftover bytes silently, where the client's reader
  reports them (`Framing.ReadersAgree`).
- If the staging name of a file is in use, `write_file_atomic` fails and removes the file
  that uses it (`AgentFs.Store.WriteFileAtomic`).
- No directory is made for a link: a link into a missing root fails unless a directory or
  file has been put before (`Limits.PutLinkExact`, `Convergence.RootReady`).
- A file dated in the agent's future is stored with the current time and sent again by
  every later sync until then (`Limits.FutureIsSentAgain`).
- A local file dated before 1970 is listed with time 0 and then taken for changed, which
  ends the sync (`Limits.SendableExact`).
- A line whose cargo path is a shell reserved word is misread when no variable precedes it
  (`RemoteLine.RemoteCargoWords`).

## Model

| member | source | states |
|---|---|---|
| Bytes.FromToLe | src/rsync.rs:74-75 | little-endian encoding loses nothing on numbers that fit |
| Bytes.ToFromLe | src/rsync.rs:89-90 | every byte string of the right length is the encoding of what it decodes to |
| Bytes.FourBytes | src/rsync.rs:103-110 | four bytes on the wire are a number with the least significant byte first |
| Signatures.BlockLenFor | src/rsync.rs:18-21 | the block length is the integer square root of the file length, clamped to 2048 and 2^20: its square is at most the length, the next square is more |
| RollingChecksum.FitsU64 | src/rsync.rs:32-41 | for windows up to 2^20 bytes neither checksum can overflow a u64 |
| RollingChecksum.SumAppend | src/rsync.rs:32-41 | both sums are 0 for no bytes, and another byte adds itself to the first and the new first sum to the second |
| RollingChecksum.Rollsum | src/rsync.rs:32-41 | the loop over u64 computes the two sums without overflow |
| RollingChecksum.SumSlide | src/rsync.rs:43-47 | how both sums change when a window slides by one byte, for windows of any length |
| RollingChecksum.Roll | src/rsync.rs:44-47 | rolling a correct checksum pair in u64 arithmetic gives the pair of the next window, with no underflow and no overflow |
| Signatures.SignatureLength | src/rsync.rs:57-68 | a signature has one entry per block, ceil(length / block length) of them |
| Signatures.SignatureAt | src/rsync.rs:57-68 | entry k describes bytes k*bl to (k+1)*bl, or to the end of the file |
| Signatures.SignatureFaithful | src/rsync.rs:57-68 | two files have equal signatures if and only if they are equal, given no collision among their blocks; and equal signatures of different files are exactly collisions |
| Signatures.SigRoundTrip | src/rsync.rs:71-98 | parsing the wire form of a signature gives the signature back |
| Signatures.SigWireRoundTrip | src/rsync.rs:71-98 | and every byte string of a length divisible by 32 is the wire form of what it parses to |
| Signatures.SigLayout | src/rsync.rs:71-80 | record k of the wire form is bytes 32k to 32k+32: both sums, least significant byte first, and the hash |
| Signatures.SigToBytes | src/rsync.rs:71-80 | the serializing loop computes the wire form |
| Signatures.SigFromBytes | src/rsync.rs:83-98 | the parsing loop accepts exactly the lengths divisible by 32 and returns the one signature with that wire form |
| Signatures.HonestSigIsTheBound | src/agent.rs:423-431 | the size check admits a signature of n bytes if and only if n is at most the size of an honest one |
| Signatures.SizeCheckExact | src/agent.rs:423-431 | for any block length, zero counting as one: a number of bytes is admitted if and only if it is a 64-bit number and its last record, whole or begun, belongs to a block that starts inside the file |
| DeltaOps.DecodeEncode | src/rsync.rs:103-131 | copy and literal operations with 32-bit fields parse back to themselves |
| DeltaOps.EncodeDecode | src/rsync.rs:186-216 | and whatever parses is the bytes of the operations it parses to |
| DeltaOps.OpLayout | src/rsync.rs:103-131 | an operation is its tag, 1 or 2, four bytes least significant first, and the bytes of a literal |
| DeltaOps.PatchedExactly | src/rsync.rs:175-225 | an output is the meaning of a delta if and only if the block length is 1 to 2^20 and the delta is the bytes of operations such that the output, cut into pieces, has the bytes of each literal and, for each copy, the bytes of the base from index times block length on, at most a block and at least one |
| DeltaOps.PatchStep | src/rsync.rs:190-216 | one operation of the patch loop extends the output by what that operation denotes |
| DeltaOps.PatchDoomed | src/rsync.rs:186-216 | whenever the loop stops early with an error, the whole delta has no acceptable meaning: no early check rejects what the final one would accept |
| DeltaOps.Patch | src/rsync.rs:175-225 | on arbitrary bytes the interpreter returns an output if and only if the delta denotes it, in the sense of the row above, and the output has the expected length; it fails if and only if there is none |
| DeltaEncoder.BucketFinds | src/rsync.rs:114-139 | searching the bucket of a rolling checksum for a strong hash finds the lowest index of the whole signature with both |
| DeltaEncoder.BuildIndex | src/rsync.rs:114-117 | the loop builds that index: every bucket lists the entries with its checksum in ascending order |
| DeltaEncoder.Delta | src/rsync.rs:113-155 | the encoder with rolling checksums and hash index produces, byte for byte, what the naive encoder produces that recomputes every window and scans the signature linearly; and what it writes parses to operations that cover the input in order, in which every copy names the first record that the window there has, and no byte of a literal starts a full window whose record is in the signature |
| DeltaEncoder.GreedyCompleteness | src/rsync.rs:123-154 | an operation list is the encoder's if and only if it covers the input in order, each copy at a position names the first record of the signature that is the record of the window there, and no byte of a literal starts a full window whose record is in the signature at all |
| DeltaEncoder.MatchAtIs | src/rsync.rs:132-139 | at every byte position, aligned or not: the search finds an index if and only if the record of the window is in the signature, and then its first index |
| DeltaEncoder.DeltaIsGreedy | src/rsync.rs:113-155 | the bytes of the delta parse to such a list |
| DeltaEncoder.DeltaRoundTripExact | src/rsync.rs:113-225 | patching the base with the delta against its signature gives the new file back if and only if each copy the encoder chose stands for an equal block |
| DeltaEncoder.DeltaRoundTrip | src/rsync.rs:113-225 | hence it does whenever the digest tells the blocks of the base from the windows of the new file, also if the base ends in a short block |
| DeltaEncoder.OneWindow | src/rsync.rs:123-147 | a file of one full window comes back if and only if no block of the base has its record or the first block that has it is the file |
| DeltaEncoder.CollisionBreaksRoundTrip | src/rsync.rs:136-139 | any block of the base with the record of a full window that is none of its blocks breaks the round trip |
| DeltaEncoder.CollisionExample | src/rsync.rs:32-41 | windows with equal rolling sums that only the hash tells apart do exist |
| DeltaEncoder.DeltaSize | src/rsync.rs:103-155 | with blocks of ten bytes or more a delta is at most five bytes longer than the file |
| DeltaEncoder.UnchangedDeltaSize | src/rsync.rs:103-155 | the delta of an unchanged file is five bytes a full block and five more than the tail, whatever the hash |
| Framing.FrameRoundTrip | src/agent.rs:300-352 | a frame followed by anything is read back with the rest intact if and only if its payload is within the limit |
| Framing.FirstFrameExactly | src/agent.rs:300-338 | a stream is read as a frame and a rest if and only if it is the bytes of that frame, within the limit, and the rest; it is too large if and only if its first four bytes announce more |
| Framing.ReassembleAll | src/agent.rs:300-338 | a stream of frames and a trailing fragment is read as exactly these frames, and the end is clean if and only if there is no fragment |
| Framing.ReadersAgree | src/agent.rs:371-386 | the readers of client and agent agree on a stream if and only if it is not one to three bytes long |
| Framing.DeliveredTogether | src/agent.rs:310-335 | data count in the order they arrive, until the channel closes or stalls; other messages add nothing |
| Framing.ChannelIo.ReadFrame | src/agent.rs:300-338 | the result and the remaining stream depend on the bytes alone, not on how the channel splits them into chunks; a fragment at the end and a stall are errors |
| Framing.ChannelIo.ReadToEnd | src/agent.rs:300-338 | called until it ends, it yields exactly the frames of the stream, and a clean end exactly if there is no fragment, no oversized frame and no stall |
| Framing.ChannelIo.WriteFrame | src/agent.rs:340-352 | exactly the frame's bytes are added to what was sent, or nothing if the length does not fit |
| Framing.StdIo.ReadFrame | src/agent.rs:371-386 | the agent's reader takes the first frame off the stream, and ends cleanly on fewer than four bytes |
| Framing.HdrRoundTrip | src/agent.rs:262-281 | header text and data are separated again if and only if the header is within its limit |
| Framing.UnpackExactly | src/agent.rs:274-281 | a payload is separated into header and data if and only if it is these packed, with the header within its limit |
| Framing.FrameLayout | src/agent.rs:340-352 | a frame is four bytes of length, least significant first, the tag and the payload |
| Framing.HdrLayout | src/agent.rs:262-269 | a header is preceded by four bytes of its length and followed by the data |
| Framing.DataFrameRoundTrip | src/agent.rs:257-281 | a header within its limit and data within MAX_DATA survive both layers of the wire format |
| Framing.DataFrameExact | src/agent.rs:257-352 | a frame with header and data is read if and only if both together are within the limit; otherwise the reader gives up |
| Framing.MaxDataExact | src/agent.rs:257-281 | MAX_DATA is exactly what fits beside every header |
| WireSizes.SigFits | src/agent.rs:1035-1052 | the signature of any file below 8 TiB fits into a frame, because the block length grows with the file |
| WireSizes.PutFits | src/agent.rs:742-783 | a file that fits into a frame is never replaced by a delta that does not |
| WireSizes.AnswerFits | src/agent.rs:1140-1171 | nor is a fetched file |
| Paths.ResolveJoin | src/agent.rs:150-161 | a listed path resolves to itself at the receiver |
| Paths.ResolveUnder | src/agent.rs:150-161 | what resolves has only proper names: no empty one, no dots, no slash |
| Paths.ResolveExactly | src/agent.rs:150-161 | a path resolves if and only if it is not absolute and no piece between its slashes is `..`; it resolves to its pieces, without the empty and `.` ones, in their order |
| Paths.ShownIsSlashed | src/agent.rs:459-460 | the pieces under which a path is reported join to the path with every backslash turned into a slash |
| Paths.Slashed | src/agent.rs:459-460 | character by character: a backslash becomes a slash and everything else stays |
| Paths.ExcludedIsPrefix | src/agent.rs:413-419 | the string test for exclusion is the prefix test on pieces: anchored at the root and never cutting a name |
| Paths.ExclusionOf | src/agent.rs:413-462 | for any exclude string, a path is left out if and only if the pieces of the exclude begin the reported path |
| FileTree.ExcludedExactly | src/agent.rs:413-462 | for a list of exclude strings: an entry is left out if and only if its reported path is one of them or goes on with a slash after one |
| Paths.SlashCountIsDepth | src/agent.rs:655-661 | the number of slashes orders paths by depth |
| FileTree.CreateDirAllOk | src/agent.rs:1013-1017 | making a directory where nothing but directories are in the way adds exactly its missing ancestors and keeps the rest |
| FileTree.WriteFileOk | src/agent.rs:970-999 | writing a file replaces or creates it with its content, stamps it with the time nearest to the given one among those from 1970 to now, adds missing directories and keeps the rest |
| FileTree.ClampIsNearest | src/agent.rs:988-990 | clamping yields that nearest time, and it is the only one |
| FileTree.PutLinkOk | src/agent.rs:1075-1090 | a link to an accepted target replaces what is at its path and nothing else |
| FileTree.SortDeletesOk | src/agent.rs:655-661 | sorting by slash count and path, both descending, puts every path before its ancestors and loses none |
| FileTree.SortDeletesSorts | src/agent.rs:655-661 | sorting permutes the paths and orders them exactly as promised: more slashes first, and of two with equally many the one that comes later in a dictionary |
| FileTree.DeleteAllExact | src/agent.rs:1019-1034 | running a deepest-first list over a tree removes every listed path except directories that hold something excluded, and changes nothing else, after any number of steps |
| SyncPlan.ListingExists | src/agent.rs:445-506 | every tree has a listing as the walk is specified: each entry that is not excluded, once, under its slashed path |
| SyncPlan.TruthfulExactly | src/agent.rs:456-506 | a listing has distinct paths, each that of the entry it describes, and misses none, if and only if no reported name has a backslash |
| SyncPlan.MapOfListing | src/agent.rs:610-616 | looking a path up in the map of a truthful listing is looking it up in the tree |
| SyncPlan.MapOfLast | src/agent.rs:610-616 | in the map of any listing the last entry with a path is found |
| SyncPlan.AlikeMeans | src/agent.rs:508-517 | two entries count as the same if and only if both are directories, or links with the same target, or files of the same length and time, all times before 1970 being one |
| SyncPlan.MetaIs | src/agent.rs:447-506 | an entry is listed with its kind, a file with its length and its time or 0 if that is before 1970, a link with its target |
| SyncPlan.PlanSync | src/agent.rs:618-662 | the planning loops select the missing directories, the entries to send, those to sign, those to verify, and the sorted deletions |
| SyncPlan.SelectPicks | src/agent.rs:618-662 | each selection keeps the order of the listing |
| SyncPlan.AgentSigExactly | src/agent.rs:1035-1052 | only a nonempty regular file has a signature, and it is sent with the block length of that file |
| SyncPlan.ReadForSendExactly | src/agent.rs:213-234 | a file is read for sending if and only if it still has the listed length and time |
| SyncPlan.GatherExactly | src/agent.rs:682-701 | any SIG frame for a file to be sent is an error if and only if it carries more than the listed file accounts for or no whole records; an empty one changes nothing, any other is entered under its path and nothing else changes |
| SyncPlan.VerifyExactly | src/agent.rs:702-726 | any SIG frame for an unchanged file is an error if and only if its path or block length is wrong, the file cannot be read, or it has too much or no whole records; otherwise the file is sent if and only if its signature has other bytes |
| SyncPlan.PutExactly | src/agent.rs:742-783 | with any table: there is no PUT frame if and only if the file is no longer what was listed or the table has an illegal block length for it; the frame has the fields of its entry, and carries the delta if and only if the table has a signature and the delta is shorter |
| SyncPlan.PutsExactly | src/agent.rs:742-783 | one such frame for each entry, up to the first that has none |
| Convergence.PlanSends | src/agent.rs:618-646 | sent are exactly the local entries that are missing or differ remotely in kind, length, time or target, each once |
| Convergence.PlanVerify | src/agent.rs:638-644 | verified are exactly the non-empty files up to VERIFY_MAX that agree in length and time |
| Convergence.PlanSigWanted | src/agent.rs:632-637 | signatures are requested for exactly the changed files that have something to build on |
| Convergence.PlanDeletes | src/agent.rs:647-662 | deleted are exactly the remote entries that are neither local nor excluded, descendants first |
| Convergence.MkdirPhase | src/agent.rs:665-669 | the MKDIR frame succeeds and leaves every local directory in place and everything else untouched |
| Convergence.HonestReply | src/agent.rs:1037-1050 | an honest SIG frame passes the size check and parses to the signature of the file with its block length |
| Convergence.VerifyHonest | src/agent.rs:702-726 | verification sends a file again if and only if its remote content differs |
| Convergence.PutHonest | src/agent.rs:742-783 | the PUT frame of a file with something to build on carries the delta against the remote copy if and only if that is shorter than the content, and the content otherwise; either rebuilds the file there, and it fits |
| Convergence.PutCost | src/agent.rs:763-775 | so it never costs more than the content or the delta, and a file that differs only in its time costs five bytes a block and five more than the tail, or its length if that is less |
| Convergence.PutStep | src/agent.rs:1069-1107 | applying one such frame succeeds, puts its entry in place, adds at most local directories and keeps the rest |
| Convergence.UnsentIsSame | src/agent.rs:623-646 | whatever is not sent is the same remotely already |
| Convergence.PutPhase | src/agent.rs:742-783 | after the PUT frames every local entry is in place, excluded and extra entries are untouched |
| Convergence.DeletePhase | src/agent.rs:785-794 | the deletions remove every extra entry except directories that hold something excluded |
| Limits.CreateDirAllExact | src/agent.rs:1013-1017 | `create_dir_all` goes through if and only if only directories lie on the way |
| Limits.CreateDirAllFails | src/agent.rs:1013-1017 | otherwise nothing changes; it is an error if a file is in the way and leads out of the tree if a link is |
| Limits.WriteFileExact | src/agent.rs:970-999 | an atomic write goes through if and only if its directory can be made and no directory is in its place |
| Limits.WriteFileFails | src/agent.rs:970-999 | a write that fails changes nothing |
| Limits.PutLinkExact | src/agent.rs:1075-1090 | a link is made if and only if its target is accepted, its directory is there and no directory is in its place |
| Limits.PutLinkFails | src/agent.rs:1075-1090 | a link that cannot be made costs what was at its path, if its target was accepted and that was no directory, and nothing else |
| Limits.PutFileExact | src/agent.rs:1069-1107 | any PUT frame for a file goes through if and only if the file can be written and its delta, if it is one, denotes a file of the announced length built on what is there; then that is the content, else nothing changes |
| Limits.KindsDecide | src/agent.rs:742-783 | with honest peers the MKDIR and PUT frames go through if and only if no directory on one side stands against a file or link on the other |
| Limits.TrustDecides | src/agent.rs:142-145 | whatever remote file goes unsent against a local file has the same content, if and only if the local file is at most VERIFY_MAX long |
| Limits.SmallFilesNeedNoTrust | src/agent.rs:142-145 | a tree without longer files needs no hypothesis about remote metadata |
| Limits.ListedElsewhere | src/agent.rs:213-234 | a file listed under a path where there is nothing cannot be sent |
| Limits.BackslashEndsSync | src/agent.rs:459-460 | the sync of a tree whose one file is called `a\b`, listed as `a/b`, ends with an error as soon as the remote listing is in |
| Limits.FutureIsSentAgain | src/agent.rs:988-990 | a file that has just been sent counts as changed again if and only if its time was in the agent's future |
| Safety.PutMomentSafe | src/agent.rs:970-999 | at every moment of a PUT frame each local file is remotely as it was or as it should be, nothing foreign is there but the one staging file, and nothing is missing but a link about to be replaced |
| Safety.MkdirMomentSafe | src/agent.rs:1013-1017 | the same at every moment of the MKDIR frame |
| Safety.DeleteMomentSafe | src/agent.rs:1019-1034 | at every moment of the DELETE frame everything local is in place and only extra entries are missing |
| Safety.SafeToRestart | src/agent.rs:742-795 | every safe state, staging files included, satisfies the hypotheses of a new sync, given that no file to be sent collides with itself |
| Session.EveryInterleaving | src/agent.rs:583-1067 | if two peers complete when messages are handed over at once, then over FIFO channels with any room: at most one direction carries messages, no peer waits forever, every run ends after exactly two steps a message, in the same final states |
| Session.TracesAgree | src/agent.rs:903-943 | what a peer sends and where it gets depend only on the messages it takes |
| Session.RestsOnce | src/agent.rs:903-943 | a peer that has stopped or waits in vain has one possible outcome for a given input |
| Session.RunsAreTraces | src/agent.rs:903-943 | in every run each peer follows its own trace, and what one has sent and the other not taken is in flight in order |
| Session.RunsGiveTraces | src/agent.rs:903-943 | a completed conversation is one stream each way; every message up is taken where the ones before it lead the agent |
| SyncProtocol.CollectStep | src/agent.rs:682-726 | one SIG frame answers one requested path, in the order of the request, and keeps the table and the list of altered files right |
| SyncProtocol.WrongFrameBreaks | src/agent.rs:585-800 | a frame that the client is not waiting for ends its side |
| SyncProtocol.CountIs | src/agent.rs:742-783 | the number of files it reports is the number of files that had to be sent |
| SigOrder.AgentAnswers | src/agent.rs:1035-1052 | in every trace, until it fails, the agent has answered what was requested but for what it still owes, in order |
| SigOrder.EveryPathAccounted | src/agent.rs:670-726 | in every run of any two trees, the answers the client has taken are the first of those due, and every path due is answered, in flight as an answer, owed, in flight as a request, or queued, in this order |
| SigOrder.OneSigForEachPath | src/agent.rs:677-726 | at the end of every honest run the client has received exactly one SIG frame for each path due, in order |
| SyncProtocol.SyncSucceeds | src/agent.rs:585-800 | handing frames over at once, an honest sync reaches DONE with the remote tree converged |
| SyncProtocol.SyncInEveryInterleaving | src/agent.rs:585-800 | in every interleaving over channels with any room: frames never travel both ways, no peer fails or meets an unexpected frame, the remote tree is safe at every step and at every moment of the frame being handled, some peer can move until DONE, and then every local entry is in place, every excluded entry untouched, with delete every extra one gone but directories holding something excluded, and the client reports the number of files that had to be sent |
| SyncProtocol.SyncTerminates | src/agent.rs:585-800 | the number of steps of any run has one bound |
| Repetition.SecondSyncIsIdle | src/agent.rs:508-517 | after a finished sync with local times not in the future, a second sync of the same tree plans no directory, file or signature, finds no altered file, and in every interleaving ends with zero files and the remote tree as it was |
| Repetition.SyncAfterStop | src/agent.rs:742-795 | from every safe state a new sync converges in every interleaving, with delete removes stray staging files, and leaves excluded entries as they were before the first sync |
| Repetition.StopAndSyncAgain | src/agent.rs:742-795 | the two put together: any run of a sync, cut at any step and any moment of a frame, followed by any run of a second one, converges |
| FetchProtocol.BasenameIsLast | src/agent.rs:166-177 | an accepted basename is the last component of the path the agent resolves |
| FetchProtocol.BasenameIs | src/agent.rs:519-521 | the basename has no slash and is the whole path or follows one |
| FetchProtocol.AcceptedIs | src/agent.rs:166-177 | accepted are exactly the names that a path can have, without backslashes and control characters |
| AgentPeer.LookExactly | src/agent.rs:196-209 | a requested path is refused if it does not resolve, found if a file is there, missing if nothing is there and only directories above, and refused otherwise; the time found is 0 for files dated before 1970 |
| AgentPeer.KeepExactly | src/agent.rs:1109-1127 | any FETCH_SIG frame is an error if and only if it has no whole records; an empty one changes nothing, another one is entered |
| AgentPeer.AnswerExactly | src/agent.rs:1128-1177 | with any table: the answer is an error if and only if the file is refused or the table has an illegal block length for it; it says whether the file is there, and carries the delta if and only if the table has a signature and the delta is shorter |
| AgentPeer.OnlyErrorsEndIt | src/agent.rs:903-1180 | in whatever state the agent waits: a frame it does not handle there, a file operation that fails and a signature without whole records bring an ERROR frame and end it, and nothing else does; the tree is left as the operation left it |
| FetchProtocol.TakeExactly | src/agent.rs:848-877 | any FETCHED frame is refused if and only if it answers another request or brings a file whose name is not accepted, whose delta denotes nothing of its length or that cannot be written; otherwise the file that is there is written with the nearest time and named |
| FetchProtocol.WrongAnswerBreaks | src/agent.rs:806-881 | a frame that the client is not waiting for ends its side and leaves its files alone |
| FetchProtocol.NamesPick | src/agent.rs:848-881 | the names returned are the basenames of the requested files that are there, in the order of the request |
| FetchProtocol.AnswerIsRight | src/agent.rs:1128-1177 | the answer for a requested file has its length and time, carries the delta against the signed copy if and only if that is shorter than the content, and the content otherwise, and either rebuilds the content |
| FetchProtocol.FetchInEveryInterleaving | src/agent.rs:806-881 | in every interleaving a fetch of distinct acceptable names runs without failure to DONE; at every step each destination is as it was or complete and nothing else has changed; at the end every file that is there has arrived with its content, vanished ones are left as they were, and exactly the written names are returned |
| AgentFs.Store.MakeDirs | src/agent.rs:970-973 | directories are made one at a time, parents first, to the effect described, and every state passed through is one such moment |
| AgentFs.Store.CreateDirs | src/agent.rs:1013-1017 | the MKDIR loop stops at the first failure, and passes only through the moments of that frame |
| AgentFs.Store.WriteFileAtomic | src/agent.rs:970-999 | step by step, staging, stamping and renaming amount to an atomic write when the staging name is free, the file then has its content and the time nearest to the given one from 1970 to now, and every state between is the old tree with at most directories and the staging file added; when it is taken, the write fails and that file is gone |
| AgentFs.Store.Apply | src/agent.rs:1069-1107 | `apply_put` has the described effect and passes only through the moments of a PUT frame |
| AgentFs.Store.DeletePaths | src/agent.rs:1019-1034 | the DELETE loop has the described effect, passes over failures, and passes only through the moments of that frame |
| AgentFs.Store.Signatures | src/agent.rs:1035-1052 | one reply per requested path, in order, each the signature of what is there |
| AgentServer.SigReqServed | src/agent.rs:1035-1052 | a SIG_REQ frame is answered by exactly one SIG frame per path, in order, and the agent waits again |
| AgentServer.ServeSync | src/agent.rs:1001-1067 | the loop of `serve_sync` writes, and does to the tree, what the agent's peer does with the same input, and passes only through moments of the frames it handles |
| AgentServer.ServeFetch | src/agent.rs:1109-1180 | the two loops of `serve_fetch` write what the peer writes |
| AgentServer.Serve | src/agent.rs:903-943 | so does the whole agent process, from HELLO to QUIT, an error or the end of input; a run that is cut off leaves the peer waiting with all input taken |
| SyncClient.SendFiles | src/agent.rs:742-783 | the sending loop produces one frame for each entry, up to the first that has none; each carries the delta if and only if there is a signature to build on and the delta is shorter; and it counts the files |
| SyncClient.Collect | src/agent.rs:682-726 | the two loops over SIG frames follow the client's peer and leave its table and list of altered files |
| SyncClient.Sync | src/agent.rs:585-800 | the client's whole side of a sync follows its peer, frame by frame, to its result |
| FetchClient.TakeFile | src/agent.rs:848-877 | handling a FETCHED frame, with the file written in steps, is the step of the client's peer |
| FetchClient.Fetch | src/agent.rs:806-881 | the client's whole side of a fetch follows its peer, with the destination directory changed in place |
| EndToEnd.SyncLoopsConverge | src/agent.rs:585-1067 | the loops of client and agent, each given what the other writes, meet their preconditions and have exactly one outcome: every frame with data fits, every PUT frame carries the shorter of content and delta, neither is cut off, both finish without error, the remote tree has converged and the client counts the files that had to be sent |
| EndToEnd.TrailIsSafe | src/agent.rs:970-1107 | however much of the client's stream arrives, every state of the remote tree that the agent process passes through is safe but for at most one staging file |
| EndToEnd.FetchLoopsArrive | src/agent.rs:806-1180 | the same for a fetch: every frame fits, every answer carries the shorter of content and delta, neither is cut off, both finish, and the destination directory holds every file that is there |
| Glob.GlobMatch | src/sshcfg.rs:86-110 | the loop with one remembered star ends, and on subjects without `*` decides the recursive relation of `*` and `?` |
| Glob.MatchesOne | src/sshcfg.rs:84-86 | in that relation a single `*` matches everything, `?` every one byte, any other byte itself |
| Glob.MatchesTogether | src/sshcfg.rs:84-86 | and a pattern in two parts matches exactly what splits into matches of the parts |
| Glob.NewStarCovers | src/sshcfg.rs:94-97 | when a later star is reached, every match the earlier star could still give is also given by the later one |
| Glob.TurnKeepsAlternatives | src/sshcfg.rs:90-105 | no turn of the loop loses or invents a match among the alternatives still open |
| Glob.GlobCorrect | src/sshcfg.rs:86-110 | on a subject without `*` the verdict is the relation, for every pattern |
| Glob.GlobExactSubjects | src/sshcfg.rs:91 | a subject is judged rightly by all patterns if and only if it has no `*` |
| HostConfig.HostSelects | src/sshcfg.rs:66-80 | a Host line selects if and only if some positive pattern is judged to match and no negated one is; for an alias without `*`, if and only if some positive pattern matches and no negated one does |
| HostConfig.StrictHostKeySettingIn | src/sshcfg.rs:55-83 | the scan returns the value of the first StrictHostKeyChecking line whose block is selected, with a letter 32 above in the place of each capital, or none; a keyword counts in any mixture of capitals; for an alias without `*`, blocks are selected by what the patterns match |
| HostConfig.LowerSpells | src/sshcfg.rs:64-78 | ignoring case, a word is the keyword if and only if it has its length and each byte is that of the keyword or its capital |
| HostConfig.ValueIsLower | src/sshcfg.rs:64-78 | the value has no capital and differs from the word in the line only where that has one |
| HostConfig.SettingAgrees | src/sshcfg.rs:55-83 | that value depends on what the patterns match and on nothing else about them |
| HostConfig.SettingIsUnique | src/sshcfg.rs:55-83 | and there is only one such answer |
| ShellQuote.ReadsQuote | src/runner.rs:878-887 | a quoted word is read by the shell as exactly its characters, in any context that may follow |
| ShellQuote.QuoteIs | src/runner.rs:878-887 | exactly the nonempty words of letters, digits and `@%_+=:,./-` go unquoted; others stand between single quotes |
| ShellQuote.NameIs | src/runner.rs:813-820 | a name is letters, digits and underscores and starts with no digit |
| ShellQuote.ShellJoinRoundTrip | src/runner.rs:890-892 | reading the joined line gives exactly the words, for all words without NUL |
| RemoteLine.ReadsPath | src/runner.rs:799-810 | a quoted remote path is read as the home directory for `~` and `$HOME`, as home, slash and rest for `~/` or `$HOME/` and any rest, and as itself otherwise |
| RemoteLine.PushEnvPrefix | src/runner.rs:863-875 | it succeeds if and only if every entry is a name, `=` and a value, and then adds, for each entry in order, the name, `=` and the quoted value |
| RemoteLine.PairIsUnique | src/runner.rs:863-875 | an entry is a name, `=` and a value in at most one way |
| RemoteLine.ValidCargoPathIs | src/runner.rs:848-858 | a cargo path is valid if and only if it is letters, digits and `._+/-` with no `-` first, optionally below `~/` or `$HOME/` |
| RemoteLine.CargoFieldIs | src/runner.rs:848-858 | a valid cargo path is never read as an assignment, and is a reserved word only if it is spelled like one |
| RemoteLine.LineReadsBack | src/runner.rs:213-237 | the line is read as changing to the directory and then running cargo with these variables, toolchain and words, if and only if cargo is not a reserved word standing first |
| RemoteLine.RemoteCargoWords | src/runner.rs:213-237 | the loops that build the line fail exactly on an entry that is no name, `=` and value; else the line is the printed pieces, and for text without NUL and a valid cargo path the shell reads it as exactly two commands, `cd` to the directory and cargo with its toolchain and words under RUSTFLAGS and the value of each entry, if and only if cargo is not a reserved word standing first |

## Left out

- DeltaEncoder.Delta: takes block lengths up to 2^20 and signatures of up to 2^32 entries, and what its bytes parse to is stated for files below 4 GiB; outside of these the casts to u32 lose bits and a block length of zero does not end. Peers that send other block lengths are treated as errors where the code would go on.
- Framing.HdrRoundTrip: headers of 2^32 bytes and more, whose length wraps, are left out.
- Signatures.BlockLenFor: the square root is the integer one; the floating-point root of the code agrees below 2^40, where the clamp takes over.
- Session.EveryInterleaving: peers do not disappear during a run; the loops in `AgentServer`, `SyncClient` and `FetchClient` do handle a closed channel.
- SyncProtocol.SyncInEveryInterleaving: listings, path lists and headers are values, not JSON text, so a LIST, MKDIR, DELETE or SIG_REQ frame over 512 MiB is not considered.
- FetchProtocol.FetchInEveryInterleaving: two requested paths with the same basename, whose second delta would be built on the first file, are excluded by hypothesis, as are local copies that are links or directories.
- HostConfig.StrictHostKeySettingIn: lines arrive split into words; reading and splitting the file is left out.
- FileTree.CreateDirAll: effects through symbolic links are marked, not followed.
- The hash function: BLAKE2 is a parameter.
- Paths on the wire are sequences of the pieces between slashes. Pieces that are empty or dots, which a listing has only for names with backslashes, are not normalised on the way (`Paths.ResolveUnder` is what the receiver does with them).
- File names that are not UTF-8, which the walk renders with replacement characters.
- The agent's clock stands still during one sync or fetch.
- Permission bits: they are sent and set, never compared.
- Special files, which the walk skips, and non-unix behaviour.
- The walk is its specification (each visible entry once, in any order), not a recursion over directory reads.
- Both trees change only by steps of the protocol during a run, and there is one root per agent.
- SSH, authentication, timeouts and the agent's stderr tail.
- The tar transfer, compression and the choice between transfers.
- Progress output, rates and byte counts.
- The run lock.
- Configuration files, command line, project naming and version parsing: simple case analysis.
