# SerialDFS, modelled and proved

SerialDFS lets DOS use a directory tree on a Linux host over a serial line. A resident DOS redirector (C)
turns each DOS call into one or more numbered requests, sends them up to ten times over a line that loses,
delays and damages frames, and waits for the reply with the same number. A Linux daemon (Python) resyncs on
the byte stream, decodes a request, runs its handler against the tree, and sends exactly one reply.

This project models both ends, the line between them, and the whole stack in layers, and proves what each
layer promises to the one above:

| file | what it holds |
|---|---|
| `Bytes.dfy`, `Options.dfy` | bytes and their bits, little-endian fields |
| `Crc.dfy` | CRC-16: the table, both loops, and that the result is a polynomial remainder |
| `Frame.dfy`, `FrameErrors.dfy` | the codec in C and in Python, its round trips, and the damage it detects |
| `Streams.dfy` | cutting a byte stream into frames, and the resynchronising reader |
| `Names.dfy`, `NameMaps.dfy`, `NameMapRuns.dfy` | 8.3 aliases, collisions, and the map over whole runs |
| `Fcb.dfy` | the two routes from an alias to the 11-byte FCB name, and template matching |
| `Clock.dfy` | the calendar, the host's time zone, and DOS stamps |
| `Os.dfy`, `Trees.dfy`, `Files.dfy` | the tree and changes to it, inodes, modification times and descriptors below the daemon |
| `PathJail.dfy`, `Jail.dfy`, `CreatedPaths.dfy`, `Effects.dfy` | path resolution: the walk, the jail, aliases undone, stability under CREATE and MKDIR; what DELETE, RMDIR, MKDIR and RENAME do to paths |
| `Handles.dfy` | the 16-slot handle table |
| `FsOps.dfy`, `ServerRuns.dfy`, `AliasRuns.dfy`, `FileRuns.dfy`, `Crashes.dfy`, `Daemon.dfy` | all handlers as functions on the server, what every run keeps, aliases and file contents over daemon runs, aliases over crashes, and the daemon object that refines the functions |
| `MainLoop.dfy` | the daemon's loop over byte streams with silence between them |
| `Rpc.dfy` | `serial_rpc` byte by byte over an adversarial line |
| `Protocol.dfy` | client, line and daemon as a step system, for properties of whole runs |
| `Transfers.dfy`, `Redirector.dfy`, `Sessions.dfy` | READFIL, WRITEFIL, and whole sessions: writing a file, reading one, saving and loading |
| `Texts.dfy`, `Requests.dfy`, `PathArms.dfy` | texts in requests; when each request succeeds, what it answers when not, and what a failure leaves behind; the redirector's arms that are one request each |
| `Opening.dfy`, `OpenArms.dfy` | what OPEN, CREATE, CLOSE and the attribute commands promise each other; AL_OPEN, AL_CREATE, AL_SPOPNFIL |
| `Listings.dfy`, `FindFiles.dfy`, `Directories.dfy` | FINDFIRST and FINDNEXT over the server's directory cursor; which directory a search names, and what it delivers of it |
| `Repeats.dfy` | what a lossy line does with the requests that are not safe to repeat: OPEN, CREATE, LIST_DIR, LIST_DIR_NEXT |
| `Witnesses.dfy` | servers and requests on which the failures listed below happen |

Code that works in place is modelled in place: the CRC table and frame buffers are arrays filled by loops; the
name map, the handle table, the daemon, the line, the RPC client, the redirector, the SFT and the search cache
are classes. Each of their methods is proved against a function on values (`FsOps.Dispatch` for the daemon,
`FirstFrame`, `Resynced`, `Resolve`, `AliasFor`, `CDecode` and so on), and the properties are proved about those
functions as lemmas.

## How the line is modelled

For each attempt of a call, a script decides two things: whether the daemon gets the request, and what the
client hears (nothing, noise, a damaged frame, an error notice, a late reply to an earlier attempt, or the reply
to this attempt). When the script is used up the line is free of losses. `Rpc.Line` never delivers junk that the
client would take for a reply to the current call. That assumption has two halves. Damage is detected: the
error classes proved in `FrameErrors.dfy` are the part that is a theorem, a collision outside them is not
considered. And a reply to an older call with the same number does not arrive: `Protocol.dfy` proves that this
can only be a reply that is a multiple of 255 calls late, and that one 255 calls late really is accepted.

A request that reaches the daemon reaches it whole. Timeouts are what an attempt without an acceptable reply
amounts to. A line is called steady when of any ten attempts in a row at least one gets through both ways. No call
times out on such a line, so what is safe to repeat is promised on steady lines, and what is not on lines without
losses. What repetition does to the latter on other lines is stated in `Repeats.dfy`.

## How time is modelled

An inode's modification time is an instant in whole seconds. The host's time zone is two functions: how far local
time is ahead at an instant, and the instant that `timestamp()` finds for a local time. `Clock.IsZone` says what is
assumed of them: offsets are less than a day; from 1979 to 2108 they are whole minutes and change on the minute, a
local time that occurs is found, and for one that is skipped the instant is less than a day away, whole minutes off.
The calendar in between is worked out, not assumed. The clock is part of the server's state. It stands still during one request and one DOS
session, and moves in `ServerRuns.Event` together with everything else that other programs may change.

## Where the code and its documentation differ

The model follows the code.

- Re-encoding an accepted frame gives its bytes back only when the reserved byte is zero. The receivers ignore
  that byte, but the CRC covers it (`Frame.EncodeUndoesDecode`).
- The two decoders order their checks differently and disagree on the error, never on acceptance, for inputs of
  10 and 11 bytes (`Frame.DecodersAgree`).
- `transport.py:56-60` says a second `S` is kept for the next round. It is discarded, so a frame behind garbage is
  found exactly when the garbage ends in an even run of `S` (`Streams.GarbageIsSkippedIffTrailingRunIsEven`).
- The CRC goes out low byte first but is computed from the top bit, so a change across the last data byte and the
  first CRC byte can pass, and exactly one does (`FrameErrors.AdjacentChangeVerdict`).
- `fsops.py:14` says the `more` flag is 0 on the last entry of a batch. It is 0 on the last entry of the listing only.
- OPEN takes mode 0 only, so AL_OPEN and the probing forms of AL_SPOPNFIL fail with error 1 for any other mode
  (`OpenArms.OpenFile`, `OpenArms.ExtendedOpen`).
- `alias_for` can raise: when the plain candidate and `~1` to `~9998` are all taken (`NameMaps.AliasInVerdict`). In
  CREATE that happens after the file has been opened, and its descriptor is lost (`ServerRuns.DispatchVerdict`,
  `Witnesses.LostDescriptor`), but never for a name that is 8.3 itself (`Effects.PlainNamesNeverRunOut`).
- An MKDIR or a RENAME for whose new name there is no alias left fails and has been carried out, as has a CREATE of a
  new file that finds no alias or no slot. No other failing request changes the tree (`Requests.FailuresInTheTree`).
- A CREATE in mode 1 that fails because there is no alias or no slot left has emptied the file by then. No other
  failing request changes the contents of a file (`FileRuns.FailedRequestsVerdict`).
- An entry that does not fit the 23-byte record (4 GiB and up) makes its batch raise. In LIST_DIR the slot stays
  taken (`FindFiles.ListDirVerdict`, `Witnesses.LostSlot`); in LIST_DIR_NEXT the search ends early
  (`Listings.ReachVerdict`).
- OPEN, CREATE and LIST_DIR executed several times take several slots, of which the client knows one, and an arm
  that fails on a lossy line may leave up to ten of them taken (`Repeats.OpenedOnAnyLine`,
  `Repeats.AbandonedArmsVerdict`). LIST_DIR_NEXT executed several times skips batches (`Repeats.BatchesRepeat`).
- A daemon that serves `/` finds nothing but its root directory: the last jail check asks for a path that starts with
  `//` (`Jail.InsideVerdict`, `Jail.WithoutLinks`). The other files of this project take the root to be another one.
- A search that ran to its end still holds its slot on the server, because the client stops at `more = 0`
  (`FindFiles.FindAll`), and sixteen of them block every later OPEN, CREATE and LIST_DIR (`FindFiles.FindMany`,
  `FindFiles.FullTableFails`).
- SET_TIME accepts a local time that daylight saving skips, and GET_TIME then reports another
  (`Opening.TimesComeBack`, `Clock.SkippedTimeMoves`).
- What AL_SPOPNFIL creates or empties behind a probe gets a write-only handle and an SFT in mode 0, so it can be
  neither read nor written (`OpenArms.ExtendedOpen`, `Sessions.SaveExtended`, `Witnesses.CreatedUnusable`).
- DELETE and RMDIR remove one entry; where another name in the directory is the same up to case, the path is found
  again (`Effects.DeleteVerdict`, `Witnesses.DeletedIsFound`).
- A renamed directory leaves its aliases under its old path. By the new path an alias still leads to its file exactly
  if a bucket that some earlier directory of that name has left there says so or, where that does not know the alias,
  if the file is the first one listed whose name is the alias up to case. Otherwise it leads nowhere, or to another
  file (`Effects.RenamedAliasVerdict`, `Witnesses.LostAlias`). What is in the bucket under the new path stays through
  all later scans (`AliasRuns.AliasesSurviveRuns`).
- `docs/etherdfs-notes.md` mentions three retries; there are ten attempts.

## Main results

- Codec: `Crc.CrcIsPolynomialRemainder`, `Frame.DecodersAgree`, `FrameErrors.BurstsAreRejected`,
  `FrameErrors.AdjacentChangeVerdict`, `Streams.GarbageIsSkippedIffTrailingRunIsEven`, `MainLoop.RequestsAreAnswered`.
- Line and numbering: `Rpc.Client.SerialRpc`, `Protocol.RepliesAreFresh`, `Protocol.StaleReplyIsAccepted`,
  `Protocol.TenExecutionsAtMost`.
- Names and paths: `Names.ExtendedName83`, `NameMapRuns.AliasesAreSticky`, `AliasRuns.AliasesSurviveRuns`, `PathJail.AliasesResolve`,
  `PathJail.EveryPathHasAliases`, `Jail.InsideVerdict`, `Fcb.ConversionsAgree`, `Effects.DeleteVerdict`,
  `Effects.RenameVerdict`, `Effects.RenamedAliasVerdict`.
- Requests: `Requests.RenameSucceeds`, `Requests.FailuresInTheTree`, `Requests.ClosedTimesComeBack`,
  `Transfers.SeekVerdict`, `Directories.ScanReports`.
- Daemon runs: `ServerRuns.DispatchVerdict`, `ServerRuns.RunVerdict`, `FileRuns.UntouchedFilesStay`,
  `FileRuns.FailedRequestsVerdict`, `Crashes.AliasesSurviveCrashes`, `MainLoop.WholeRequestsAreAnswered`,
  `Opening.TimesComeBack`, `Daemon.Server.Dispatch`.
- DOS sessions: `Redirector.Tsr.ReadFile`, `Redirector.Tsr.WriteFile`, `OpenArms.ExtendedOpen`,
  `Sessions.SaveAndLoad`, `FindFiles.FindAll`, `FindFiles.FindMany`, `Directories.SearchFindsDirectory`, `Directories.SearchVerdict`,
  `Repeats.OpensRepeat`, `Repeats.BatchesRepeat`.

## Model

| member | source | states |
|---|---|---|
| Crc.CrcInit | dos/src/serframe.c:12-24 | the loop fills a table whose row for byte o is o shifted eight times through the register |
| Crc.Crc16Update | dos/src/serframe.c:28-31 | one table step equals eight single-bit steps on the register |
| Crc.Crc16Block | dos/src/serframe.c:33-40 | the table-driven fold equals the bitwise CRC of the whole buffer from 0xFFFF |
| Crc.PyBuildTable | linux/serdfsd/frame.py:61-70 | the Python loops build the same table |
| Crc.PyCrc16 | protocol/crc16_reference.py:32-43 | the reference loop computes the same CRC |
| Crc.CrcIsPolynomialRemainder | protocol/spec.txt:27-39 | the CRC of any byte string is the remainder of its bits, the first sixteen inverted and sixteen zeros behind, on division by x^16+x^12+x^5+1 |
| Crc.CrcLinear | dos/src/serframe.c:28-40 | the CRC is linear over bitwise difference of start values and messages |
| Frame.FrameEncode | dos/src/serframe.c:42-67 | fills out[] with exactly the frame and leaves the bytes behind it alone; 0 and nothing written for an oversized payload |
| Frame.FrameDecode | dos/src/serframe.c:69-98 | reports exactly what the specification of the C decoder says about buf[..len] |
| Frame.DecodersAgree | linux/serdfsd/frame.py:118-154 | the C and Python decoders accept the same inputs with the same fields, and agree on the error too except on exactly the stated 10- and 11-byte inputs |
| Frame.DecodeUndoesEncode | linux/serdfsd/frame.py:103-154 | for payloads up to 512 bytes both decoders give back the encoded fields, whatever follows the frame |
| Frame.EncodeUndoesDecode | dos/src/serframe.c:42-98 | re-encoding an accepted frame gives its bytes back if and only if its reserved byte is zero |
| FrameErrors.AcceptedFramesAreEven | dos/src/serframe.c:28-98 | every accepted frame has an even number of one bits, because CRC steps conserve parity |
| FrameErrors.OddErrorsAreRejected | dos/src/serframe.c:69-98 | any odd number of flipped bits that leaves the length alone, CRC bytes included, is rejected |
| FrameErrors.BurstsAreRejected | dos/src/serframe.c:69-98 | any change within sixteen consecutive covered bits, at any alignment, is rejected |
| FrameErrors.AdjacentChangeVerdict | dos/src/serframe.c:69-98 | a change of two adjacent bytes, lengths apart, is accepted only if it is no change or the one pair 0x89, 0xA1 across the boundary to the CRC |
| Streams.ReadFrame | linux/serdfsd/frame.py:157-182 | reads exactly the first frame and consumes nothing past it, however the stream is cut into chunks |
| Streams.FramesComeBack | linux/serdfsd/frame.py:157-182 | a concatenation of frames is read back as those frames |
| Streams.TransportReadFrame | linux/serdfsd/transport.py:33-84 | scan, header and body: the outcome and the rest of the stream are those of the specified reader |
| Streams.GarbageIsSkippedIffTrailingRunIsEven | linux/serdfsd/transport.py:40-64 | behind magic-free garbage of fewer than 4096 bytes the next frame is returned exactly if and only if the garbage ends in an even run of S |
| Streams.LongGarbageIsDropped | linux/serdfsd/transport.py:40-50 | 4096 bytes without an S are dropped and nothing behind them |
| Streams.OversizedHeaderIsDropped | linux/serdfsd/transport.py:66-76 | a header that announces more than 512 bytes is dropped and nothing behind it |
| Names.KeepLegalJoins | linux/serdfsd/namemap.py:203-204 | what is kept of two strings joined is what is kept of each |
| Names.LegalIsListed | linux/serdfsd/namemap.py:16-18 | the characters kept are the letters, digits and special characters listed |
| Names.ExtendedName83 | linux/serdfsd/namemap.py:183-200 | the first candidate for a name with an extension is the first eight legal characters of what is before the last dot, in upper case, or "_", and the first three of the extension |
| Names.PlainName83 | linux/serdfsd/namemap.py:183-200 | a name with no dot behind its first character has the first eight legal characters, or "_", and no extension |
| Names.DigitsAreDecimal | linux/serdfsd/namemap.py:207-218 | the number in a suffix is decimal, without leading zeros |
| Names.TildeSuffixParts | linux/serdfsd/namemap.py:207-218 | the suffixed alias has the cut base, ~n and the old extension |
| Names.CandidateIsValid | linux/serdfsd/namemap.py:183-218 | every candidate up to ~9998 is a valid 8.3 name |
| Names.CandidatesDiffer | linux/serdfsd/namemap.py:207-218 | candidates with different suffixes differ |
| NameMaps.AliasInVerdict | linux/serdfsd/namemap.py:103-129 | alias_for raises if and only if the name is new and the plain candidate and ~1 to ~9998 are taken; else it returns the alias of a name equal up to case or registers a valid free one |
| NameMaps.LeastCandidate | linux/serdfsd/namemap.py:103-129 | a new name gets the first candidate that is not taken |
| NameMaps.AliasForVerdict | linux/serdfsd/namemap.py:98-129 | the map stays well-formed, other directories are untouched, and looking the alias up gives the name up to case |
| NameMaps.SmallBucketsNeverRaise | linux/serdfsd/namemap.py:103-129 | a directory with fewer than 9998 names never runs out of aliases |
| NameMaps.RemoveAliasVerdict | linux/serdfsd/namemap.py:131-144 | exactly the names equal up to case are forgotten, in that directory only |
| NameMapRuns.ScanVerdict | linux/serdfsd/namemap.py:146-169 | a scan keeps every alias and reports each visible entry once, in order, under a valid alias that denotes it |
| Os.SortVerdict | linux/serdfsd/namemap.py:154 | a listing is sorted by upper-case name, and names equal up to case keep their order |
| Directories.ScanReports | linux/serdfsd/namemap.py:146-169 | a scan of a directory in the tree reports every entry but the map's own file, once, sorted, as a directory or a file, with the length of its contents and the stamps of its modification time |
| NameMapRuns.SmallScansNeverRaise | linux/serdfsd/namemap.py:146-169 | a scan never raises where registered names and listed entries are 9998 at most together |
| NameMapRuns.RescanIsSame | linux/serdfsd/namemap.py:146-169 | a second scan of the same directory reports the same entries under the same aliases and changes nothing |
| NameMapRuns.StepKeepsGood | linux/serdfsd/namemap.py:59-169 | every operation, save and restart included, keeps both copies well-formed and the dirty flag honest |
| NameMapRuns.AliasesAreSticky | linux/serdfsd/namemap.py:59-169 | over any run an alias keeps its real name unless a name equal up to case is removed from that directory |
| NameMapRuns.NameMap.AliasForName | linux/serdfsd/namemap.py:103-129 | the search and the collision loop do what the specified step does, result and dirty flag included |
| NameMapRuns.NameMap.RemoveName | linux/serdfsd/namemap.py:131-144 | the loop does what the specified removal does, dropping an emptied directory |
| NameMapRuns.NameMap.Scan | linux/serdfsd/namemap.py:146-169 | the scan loop registers and reports what the specified scan does, and stops where alias_for raises |
| NameMapRuns.NameMap.SaveIfDirty | linux/serdfsd/namemap.py:79-94 | the file becomes the map if and only if the flag was set, and the flag is cleared |
| Fcb.Name83ToFcb | dos/src/serdfs.c:166-181 | the two copy loops give base and extension, each cut and padded with spaces |
| Fcb.NormaliseFcb | dos/src/serdfs.c:1069-1085 | the handler's loops give the FCB form of what follows the last backslash |
| Fcb.PatternNormalises | dos/src/serdfs.c:1069-1085 | a name or pattern behind the last backslash: up to eight bytes before its dot and the first three behind it, each filled up with spaces |
| Fcb.FieldConverts | linux/serdfsd/fsops.py:57-65 | every alias fits the 12-byte field whole, and the field converts to its FCB form |
| Fcb.ConversionsAgree | dos/src/serdfs.c:166-181 | a path ending in an alias and the directory entry of that alias reach the same 11 bytes |
| Fcb.FcbMatch | dos/src/serdfs.c:184-190 | true if and only if every template byte is a question mark or equal |
| Fcb.TemplateChooses | dos/src/serdfs.c:184-190 | byte by byte a question mark takes anything and any other byte only itself |
| Fcb.ExactTemplateMatchesOneAlias | dos/src/serdfs.c:184-190 | an alias as template matches the entry of that alias and no other |
| PathJail.ResolvePath | linux/serdfsd/pathjail.py:22-72 | the gate loop and the component walk resolve exactly as specified |
| PathJail.ResolvedPathsStayBelowRoot | linux/serdfsd/pathjail.py:44-72 | what passes the gate and the walk consists of plain entry names below the root, none of them "..", "." or with a separator |
| PathJail.GateVerdict | linux/serdfsd/pathjail.py:44-49 | a path is refused if and only if one of its parts is ".." or holds a control character |
| PathJail.SlashesSeparate | linux/serdfsd/pathjail.py:38-42 | either slash ends a part |
| PathJail.PartsThatCount | linux/serdfsd/pathjail.py:34-42 | a drive in front and empty parts make no difference |
| PathJail.PartMeans | linux/serdfsd/pathjail.py:53-72 | a part is the alias it is in any case, else the first entry listed that equals it up to case, else itself in upper case |
| Texts.PathIsRead | linux/serdfsd/fsops.py:206 | the path of a request is the ASCII text behind its first byte, up to a NUL or the end |
| Jail.InsideVerdict | linux/serdfsd/pathjail.py:80-83 | comparing the texts of two absolute paths accepts exactly the root and what is below it, component by component, unless the root is "/", which accepts only itself |
| Jail.NothingOutsideTheRoot | linux/serdfsd/pathjail.py:74-85 | whatever realpath makes of symbolic links, the accepted path is at or below the root; below any root but "/" every path is accepted that passes the gate and whose canonical form is there |
| Jail.WithoutLinks | linux/serdfsd/pathjail.py:22-85 | without symbolic links the check changes nothing below any root but "/", and below "/" only the root itself passes |
| PathJail.AliasesResolve | linux/serdfsd/pathjail.py:53-70 | at every depth the joined aliases of a path resolve to exactly that path, even where an alias is also another file's real name |
| PathJail.EveryPathHasAliases | linux/serdfsd/namemap.py:146-169 | after scanning the directories on the way, case-distinct and with 9998 names at most, every existing path but the name-map file itself has a path of aliases that resolves to it |
| Handles.AllocVerdict | linux/serdfsd/handles.py:45-50 | allocation fails if and only if all sixteen slots are taken; else it takes the least free one, and freeing it restores the table |
| Handles.HandleTable.Alloc | linux/serdfsd/handles.py:45-56 | the search loop puts the handle into the least free slot and changes no other |
| Handles.HandleTable.Release | linux/serdfsd/handles.py:75-85 | empties exactly that slot and hands out what it held; a bad id changes nothing |
| Clock.LocalOfSeconds | linux/serdfsd/fsops.py:46-53 | taking a number of seconds apart into calendar fields undoes counting the seconds of a date and time, for every year |
| Clock.StampsRead | linux/serdfsd/fsops.py:46-53 | stamps read back are the local time but for an odd second, with 1980 for every earlier year |
| Clock.StampsComeBack | linux/serdfsd/fsops.py:680-692 | a valid DOS date and time made into an instant and stamped again is the same if and only if the host's local time does not skip it |
| Clock.SkippedTimeMoves | linux/serdfsd/fsops.py:680-692 | 2024-03-31 02:30 in Berlin is skipped and comes back as 03:30 |
| Trees.MovedAt | linux/serdfsd/fsops.py:440-478 | after a rename each path holds what came from the same place below the source, or what stayed there |
| Trees.MovedIsGood | linux/serdfsd/fsops.py:440-478 | renaming an entry with everything below it leaves a tree: everything is listed in its directory, once, and nothing is listed that does not exist |
| ServerRuns.DispatchVerdict | linux/serdfsd/fsops.py:70-106 | every request keeps handles in step with descriptors and the name map well-formed, gets a reply of at most 512 bytes that is empty on errors, and loses a descriptor if and only if CREATE runs out of aliases |
| ServerRuns.RunVerdict | linux/serdfsd/fsops.py:239-273 | over all runs every shadow offset equals the descriptor's position, and every descriptor belongs to one handle if and only if no CREATE ran out of aliases |
| ServerRuns.CreateVerdict | linux/serdfsd/fsops.py:315-361 | CREATE keeps the invariant and leaves a descriptor without a handle exactly when alias_for raises |
| AliasRuns.RequestKeepsAliases | linux/serdfsd/fsops.py:70-106 | a request changes what an alias stands for only if it deletes, removes or renames that very entry |
| AliasRuns.AliasesSurviveRuns | linux/serdfsd/namemap.py:103-169 | over every run of the daemon, whatever other programs do to the tree, an alias keeps its real name unless a request deletes, removes or renames that entry |
| FileRuns.ContentsVerdict | linux/serdfsd/fsops.py:70-106 | no request changes the contents of a file except a WRITE through a handle on it or a CREATE that truncates it |
| FileRuns.CreateEmpties | linux/serdfsd/fsops.py:338-361 | CREATE in mode 1 empties the file that the path names, whether or not it succeeds, and no other |
| FileRuns.FailedRequestsVerdict | linux/serdfsd/fsops.py:70-106 | a failing request changes the contents of a file if and only if it is a CREATE in mode 1 of a file that is not empty, with no alias or no slot left |
| FileRuns.UntouchedFilesStay | linux/serdfsd/fsops.py:70-106 | over every run of requests a file that none of them touches keeps its contents |
| Crashes.RepliesComeAfterSaving | linux/serdfsd/namemap.py:79-94 | behind a successful LIST_DIR, CREATE, MKDIR or RENAME every alias in the map is on disk, with its name, before the reply goes out |
| Crashes.AliasesSurviveCrashes | linux/serdfsd/namemap.py:59-94 | over every life of requests, changes by other programs and crashes an alias that was once on disk keeps its real name unless a request deletes, removes or renames that entry |
| Daemon.Server.EmitBatch | linux/serdfsd/fsops.py:176-193 | the packing loop sends the next 22 entries and moves the cursor, or raises and moves nothing |
| Daemon.Server.Dispatch | linux/serdfsd/fsops.py:70-694 | each of the nineteen commands reaches its handler, and the handler does to the fields of the daemon, its handle table and its name map what the specified function does to their values, reply included; any other command is refused; the invariant is kept |
| Daemon.Server.Serve | linux/serdfsd/serdfsd.py:92-121 | one reply per decoded request with its command and number and the handler's result; a reply numbered 0 for a bad CRC; none for other bad frames |
| MainLoop.ServeAll | linux/serdfsd/serdfsd.py:91-121 | the main loop over any byte stream, garbage, damage and cut frames included, leaves the state and sends the frames that the specified turns do, and uses the stream up |
| MainLoop.RequestsAreAnswered | linux/serdfsd/serdfsd.py:91-121 | a stream of encoded requests, behind garbage that hides no frame, is cut up and executed one by one, each answered once |
| MainLoop.ServeBursts | linux/serdfsd/serdfsd.py:91-121 | the same over a line that falls silent again and again: every silence ends the frame that was being read |
| MainLoop.WholeRequestsAreAnswered | linux/serdfsd/transport.py:33-84 | over a line that falls silent anywhere, in the middle of frames too, exactly the requests that arrived whole are executed and answered, each once and in order |
| MainLoop.DamagedFrameIsPassed | linux/serdfsd/serdfsd.py:102-111 | a frame that arrives damaged executes nothing, gets the notice numbered 0 if its CRC is wrong and nothing otherwise, and what is behind it is served as if it had not been there |
| MainLoop.AnswersMatch | linux/serdfsd/serdfsd.py:113-121 | the i-th reply decodes and carries the command and the number of the i-th request |
| Rpc.ReplyIsHeard | dos/src/serrpc.c:61-105 | a reply that arrives whole is taken if and only if it carries the current number |
| Rpc.Client.ReceiveReply | dos/src/serrpc.c:61-105 | header, length check, body, decode and stale drop take exactly the replies they should from any bytes |
| Rpc.Client.Attempt | dos/src/serrpc.c:46-105 | one attempt executes the request at most once and hears only results of this call; when it gets through both ways it executes the request once and hears that result |
| Rpc.Client.SerialRpc | dos/src/serrpc.c:23-122 | at most ten frames and ten executions; OK reports the result of one of this call's own executions, and every attempt before the last was lossy; a timeout comes after exactly ten lossy attempts, so never on a line that does not lose ten in a row; when the first attempt gets through, exactly one execution; an oversized payload sends nothing |
| Protocol.SeqOfCounts | dos/src/serrpc.c:37-39 | the k-th call's number is what the counter gives, never 0 |
| Protocol.AcceptVerdict | dos/src/serrpc.c:104-118 | a frame is accepted if and only if it is a reply to the outstanding call or to one a multiple of 255 calls earlier |
| Protocol.AcceptingIsHearing | dos/src/serrpc.c:61-105 | the step that takes a frame takes it exactly where the client, receiving its bytes, hears a reply, and takes that reply |
| Protocol.RepliesAreFresh | dos/src/serrpc.c:37-119 | in every run with no reply 255 or more calls late, each reply accepted for call k is the result of the daemon executing call k's own request |
| Protocol.TenExecutionsAtMost | dos/src/serrpc.c:46-122 | in every run the daemon executes calls in their order and none more than ten times |
| Protocol.StaleReplyIsAccepted | dos/src/serrpc.c:104-105 | a run in which call 256 accepts the reply to call 1, so the window is exact |
| Transfers.ReadsAreIdempotent | linux/serdfsd/fsops.py:239-273 | an explicit-offset READ executed any number of times changes nothing and gives the same bytes |
| Transfers.TrackedReadAnswer | linux/serdfsd/fsops.py:239-273 | a position-tracked READ sends the file from the shadow offset on, 512 bytes at most, and moves the offset behind it |
| Transfers.TrackedReadsAdvance | linux/serdfsd/fsops.py:265-268 | position-tracked READs are consecutive, so a repeated one skips data |
| Transfers.SeekVerdict | linux/serdfsd/fsops.py:547-568 | SEEK on an open handle succeeds if and only if the start, the shadow offset or the end, by whence, and the signed offset add up to a position of 32 bits, and reports it; below 0 nothing changes |
| Transfers.SeekThenRead | linux/serdfsd/fsops.py:547-568 | a position-tracked READ behind a SEEK starts at the position the SEEK reported |
| Transfers.LastBytes | linux/serdfsd/fsops.py:547-568 | SEEK to k bytes before the end and a READ of k bytes bring the last k bytes |
| Transfers.SkipFromHere | linux/serdfsd/fsops.py:547-568 | a READ, a SEEK from there and another READ: the second starts where the first ended, moved by the offset |
| Transfers.WrittenByte | linux/serdfsd/fsops.py:382-384 | a WRITE puts its bytes at the position, keeps the others, and fills a gap with NULs |
| Transfers.WritesRepeat | linux/serdfsd/fsops.py:364-388 | a WRITE executed n times writes its bytes n times, one behind the other |
| Transfers.WritesJoin | linux/serdfsd/fsops.py:364-388 | two WRITEs are one WRITE of the joined bytes |
| Transfers.SentOnce | dos/src/serdfs.c:522-538 | chunks of 511 bytes, each written once, make up the buffer |
| Redirector.Tsr.ReadFile | dos/src/serdfs.c:468-509 | over any line, success means the DTA holds exactly the file from the position on, up to CX or the end, and CX and position say so; failure leaves CX and position; the server is unchanged; on a line that never loses ten attempts in a row it succeeds if and only if the SFT may read and the handle can be read |
| Redirector.Tsr.WriteFile | dos/src/serdfs.c:512-540 | over any line, chunk i goes in reps[i] times, between 1 and 10 for each chunk passed; without losses exactly the buffer goes in; CX, position and size follow; on a line that never loses ten attempts in a row it succeeds if and only if the SFT may write and the handle can be written |
| Redirector.DosErrors | dos/src/serdfs.c:199-213 | each status has the DOS error listed for it, and any other status 2 |
| Sessions.LossyWritesAppend | dos/src/serdfs.c:512-540 | at the end of a file a lossy WRITEFIL leaves chunk after chunk, each repeated as often as it was executed |
| Sessions.CopyIn | dos/src/serdfs.c:512-736 | without losses CREATE and any sequence of WRITEFIL calls succeed if and only if the path can be created or emptied; then the file is the buffers joined, and SFT position, SFT size, server position and shadow offset equal its length |
| Sessions.CopyOut | dos/src/serdfs.c:468-509 | over any line, READFIL calls until a short one either fail or bring exactly the file; none fails on a line that never loses ten attempts in a row |
| Sessions.SaveAndLoad | dos/src/serdfs.c:430-736 | create, write, close, open the same path, read to the end, without losses: succeeds if and only if the path can be created or emptied and the buffers joined stay below 4 GiB, and then the bytes read are the bytes written |
| Sessions.SaveExtended | dos/src/serdfs.c:512-841 | a WRITEFIL behind an extended open succeeds if and only if the open did, its action code does not probe, and the mode writes |
| CreatedPaths.ResolveIsStable | linux/serdfsd/pathjail.py:53-70 | a path that CREATE or MKDIR resolved resolves to the same place after its entry and alias have been added |
| Effects.DeleteVerdict | linux/serdfsd/fsops.py:408-437 | after DELETE the path is gone, open handles keep the contents, and the same DOS path is not found if and only if no other name that the directory listed before is its last component up to case |
| Effects.RemoveDirVerdict | linux/serdfsd/fsops.py:515-544 | the same after RMDIR |
| Effects.MakeDirectoryVerdict | linux/serdfsd/fsops.py:481-512 | after MKDIR the same DOS path leads to a directory that lists nothing |
| Effects.RenameVerdict | linux/serdfsd/fsops.py:440-478 | after RENAME the target and everything below it are what the source and everything below it were, nothing is left there, contents are unchanged, and only the two parents' aliases have changed |
| Effects.RenamedAliasVerdict | linux/serdfsd/fsops.py:440-478 | what an alias of an entry means by the new path of its directory: it leads to that entry if and only if the bucket already there says so or, where that does not know it, the entry is the first name listed that equals it up to case, or is the alias itself and not listed; it leads to anything if and only if what that bucket says is listed or, where that does not know it, some listed name equals it up to case |
| Effects.PlainNamesNeverRunOut | linux/serdfsd/namemap.py:103-129 | a CREATE whose last component is an 8.3 name never runs out of aliases, so it loses no descriptor |
| Witnesses.LostAlias | linux/serdfsd/fsops.py:440-478 | a server and a RENAME after which an alias leads nowhere, or to another file where an earlier directory has left it, while its own file is there |
| Witnesses.DeletedIsFound | linux/serdfsd/fsops.py:408-437 | a server and a DELETE that succeeds, after which the same path is found again |
| Witnesses.LostDescriptor | linux/serdfsd/fsops.py:338-361 | a server that keeps the invariant and a CREATE that runs out of aliases and leaves a descriptor without a handle |
| Witnesses.LostSlot | linux/serdfsd/fsops.py:122-155 | a server with no handle open and a LIST_DIR that fails and leaves slot 0 taken |
| Witnesses.CreatedUnusable | dos/src/serdfs.c:738-841 | a server and an extended open that creates a file behind a probe, with the SFT in mode 0 |
| Requests.DeleteSucceeds | linux/serdfsd/fsops.py:408-437 | DELETE succeeds if and only if the path names a file; which error it gives otherwise; a failure changes nothing |
| Requests.RemoveDirSucceeds | linux/serdfsd/fsops.py:515-544 | RMDIR succeeds if and only if the path names a directory that lists nothing, the root apart; a failure changes nothing |
| Requests.MakeDirectorySucceeds | linux/serdfsd/fsops.py:481-512 | MKDIR succeeds if and only if the path names nothing, its directory exists, and there is an alias; which error it gives otherwise |
| Requests.RenameSucceeds | linux/serdfsd/fsops.py:440-478 | RENAME succeeds if and only if both paths are given and resolve, the source exists and is not the root, the target does not exist, lies in an existing directory and not below the source, and can be given an alias once the source's is forgotten; which error it gives otherwise |
| Requests.FailuresInTheTree | linux/serdfsd/fsops.py:70-106 | a failing request changes the tree if and only if it is a CREATE of a new file without an alias or a slot left, or an MKDIR or RENAME that lacks only the alias |
| Requests.AttrVerdict | linux/serdfsd/fsops.py:571-596 | GET_ATTR succeeds if and only if the path exists and its size and date fit; 0x10 for a directory, 0x20 for a file, with size and stamps |
| Requests.SetTimeSucceeds | linux/serdfsd/fsops.py:658-694 | SET_TIME succeeds if and only if the path exists and the stamps are a date and time of the calendar; it changes the one modification time |
| Requests.GetTimeVerdict | linux/serdfsd/fsops.py:634-655 | GET_TIME reports the stamps of what exists, up to 2107 |
| Requests.SetAttrVerdict | linux/serdfsd/fsops.py:599-631 | SET_ATTR succeeds if and only if there is an attribute byte and the path exists |
| Requests.OpenRefuses | linux/serdfsd/fsops.py:196-236 | which error OPEN gives, by mode, path and slots |
| Requests.CreateRefuses | linux/serdfsd/fsops.py:315-361 | which error CREATE gives, by mode and path |
| Requests.ListingRefuses | linux/serdfsd/fsops.py:122-173 | which error LIST_DIR and LIST_DIR_NEXT give |
| Requests.TransfersRefuse | linux/serdfsd/fsops.py:239-388 | READ succeeds if and only if the handle reads, WRITE if and only if it writes; which error they give otherwise, changing nothing |
| Requests.CloseVerdict | linux/serdfsd/fsops.py:276-310 | CLOSE succeeds if and only if the handle is taken; it frees the slot and the descriptor, and stamps the file if and only if the handle writes, the file is still there and the stamps, with month and day at least 1, are of the calendar |
| Requests.ClosedTimesComeBack | linux/serdfsd/fsops.py:292-305 | the stamps that CLOSE applied come back from GET_TIME if and only if they are a local time that is not skipped |
| Requests.CreatedTimesComeBack | linux/serdfsd/fsops.py:276-361 | CREATE, CLOSE with stamps and GET_TIME of the same path: the stamps come back if and only if they are a local time that is not skipped |
| PathArms.DeleteFile | dos/src/serdfs.c:616-628 | without losses AL_DELETE succeeds if and only if the path names a file, and fails with 2, 3 or 5 otherwise |
| PathArms.RemoveDirectory | dos/src/serdfs.c:378-392 | without losses AL_RMDIR succeeds if and only if the path names a directory that lists nothing, the root apart |
| PathArms.CreateDirectory | dos/src/serdfs.c:395-407 | without losses AL_MKDIR succeeds if and only if MKDIR does, and fails with 80, 3 or 2 for what exists, a bad path and a missing directory |
| PathArms.RenameFile | dos/src/serdfs.c:596-613 | without losses AL_RENAME succeeds if and only if RENAME does with the two paths |
| PathArms.RenameTexts | dos/src/serdfs.c:602-605 | the server reads both paths of AL_RENAME back |
| PathArms.ChangeDirectory | dos/src/serdfs.c:410-427 | AL_CHDIR changes nothing; without losses it succeeds if and only if the path names a directory dated up to 2107 |
| PathArms.SeekFromEnd | dos/src/serdfs.c:954-978 | without losses AL_SKFMEND succeeds if and only if the end of an open file and the signed offset add up to a position of 32 bits, which SFT, registers and server then hold |
| Opening.OpenSucceeds | linux/serdfsd/fsops.py:196-236 | OPEN succeeds if and only if mode 0 names an existing file and a slot is free |
| Opening.CreateSucceeds | linux/serdfsd/fsops.py:315-361 | CREATE succeeds if and only if the name is in an existing directory, is no directory, is new in mode 0, can be given an alias, and a slot is free |
| Opening.OpenedIsReadable | linux/serdfsd/fsops.py:196-236 | the handle reads the file the path names |
| Opening.CreatedIsEmpty | linux/serdfsd/fsops.py:338-361 | the handle writes, from position 0, a file that is now empty |
| Opening.SizeAfterCreate | linux/serdfsd/fsops.py:571-596 | GET_ATTR for the same path right behind CREATE succeeds if and only if the present has a date up to 2107, and reports size 0 and the present |
| Opening.SizeAfterOpen | linux/serdfsd/fsops.py:571-596 | GET_ATTR for the same path right behind OPEN succeeds if and only if the entry packs, and reports the size of what the handle reads |
| Opening.OpenAndAttrVerdict | linux/serdfsd/fsops.py:196-236 | OPEN and the GET_ATTR behind it succeed if and only if mode 0 names a file whose entry packs, with a slot free |
| Opening.CreateAndAttrVerdict | linux/serdfsd/fsops.py:315-361 | CREATE and the GET_ATTR behind it succeed if and only if the name can be created, as stated, and the present has a date up to 2107 |
| Opening.TimesComeBack | linux/serdfsd/fsops.py:634-694 | the four bytes SET_TIME took come back from GET_TIME for the same path, file or directory, if and only if they are a local time that is not skipped |
| Opening.CreatedWritesTo | linux/serdfsd/fsops.py:338-361 | behind CREATE the handle writes the very file that the same path now names |
| Opening.ClosingStores | linux/serdfsd/fsops.py:276-310 | CLOSE, with or without stamps, leaves every stored file reachable and as it is |
| Opening.ClosedCanOpen | linux/serdfsd/fsops.py:276-310 | closed with the stamps of the present, a file just written can be opened again if and only if its size fits in 32 bits |
| Opening.WrittenIsRead | linux/serdfsd/fsops.py:196-388 | CREATE, WRITE, CLOSE, and OPEN of the same path: OPEN succeeds and its handle reads exactly what was written |
| OpenArms.FillSft | dos/src/serdfs.c:815-840 | on GET_ATTR's answer the SFT is filled; without one the handle is closed and the arm fails with error 2 |
| OpenArms.OpenFile | dos/src/serdfs.c:631-687 | without losses it succeeds if and only if the mode is 0, the path names a file whose entry packs, and a slot is free; it then takes exactly one slot, recorded in the SFT, for a handle that reads the file from its start and whose size the SFT knows; failure leaves the slots alone and tells by DOS error 1, 2, 3, 5 or 29 what was wrong; on any line success means that one of the executions of OPEN returned the handle in the SFT, and failure that a handle that was heard has been given to CLOSE |
| OpenArms.CreateFile | dos/src/serdfs.c:690-736 | without losses it succeeds if and only if the path can be created or emptied; it then takes exactly one slot, recorded in the SFT, for a handle that writes the file the path now names, empty and stamped now; failure leaves the slots alone, with DOS error 3 for a bad path, 2 for a missing directory and 29 for a directory; a file that the path names is emptied either way, and no other; on any line what AL_OPEN promises |
| OpenArms.CloseFile | dos/src/serdfs.c:430-451 | without losses the handle in the SFT is closed, with the SFT's stamps if it was written |
| OpenArms.ActionTable | dos/src/serdfs.c:738-812 | what each pair of actions of AL_SPOPNFIL does in mode 0 to a file that exists and to one that does not |
| OpenArms.OtherModes | dos/src/serdfs.c:758-806 | in any other mode only the creation of a missing file without a probe succeeds |
| OpenArms.ExtendedOpen | dos/src/serdfs.c:738-841 | without losses, for every action code, mode and state of the path: whether it succeeds and with which CX; success takes exactly one slot, recorded in the SFT, and the SFT can be read or written through if and only if CX is 1 or the mode writes; failure leaves the slots alone |
| Directories.ArmNamesPath | dos/src/serdfs.c:228-239 | an arm asked for a drive and the aliases of a path asks the server for exactly that path |
| Listings.FoundInEntry | dos/src/serdfs.c:259-268 | the found-file block read out of a packed entry is the entry's name, attribute, stamps and size |
| Listings.AttrBits | dos/src/serdfs.c:192-196 | of the hidden, system, volume and directory bits the entry has none that the search has not |
| Listings.BatchAt | linux/serdfsd/fsops.py:176-193 | the j-th 23 bytes of a batch are the j-th entry, flagged with whether the listing goes on |
| Listings.HitsAreFiltered | dos/src/serdfs.c:245-256 | hit after hit from a position on is the filtered rest of the snapshot |
| Listings.ReachVerdict | linux/serdfsd/fsops.py:176-193 | an enumeration reaches the end if and only if every entry packs |
| FindFiles.ListDirVerdict | linux/serdfsd/fsops.py:122-155 | LIST_DIR succeeds exactly with a snapshot, a free slot and a first batch that packs; a failure leaves the slots alone, except that a batch that does not pack leaves its enumeration in the slot |
| FindFiles.ListDirNames | linux/serdfsd/fsops.py:122-155 | the aliases a scan has handed out are kept whatever becomes of the LIST_DIR, and saved unless the scan raised |
| FindFiles.SmallDirectoriesList | linux/serdfsd/fsops.py:122-155 | LIST_DIR has a snapshot for every directory with 9998 registered names and entries at most |
| FindFiles.ListsAgain | linux/serdfsd/fsops.py:122-155 | listing a directory again finds the same snapshot, although the first listing has registered aliases |
| FindFiles.ListDirNextVerdict | linux/serdfsd/fsops.py:158-193 | with entries left, the next batch and the moved cursor, or an error and nothing moved |
| FindFiles.Finder.ScanBatch | dos/src/serdfs.c:245-256 | the first cached entry from the index on that passes both filters, and the index behind it |
| FindFiles.Finder.Search | dos/src/serdfs.c:905-935 | the first entry of the whole rest of the snapshot that passes, across batches; the loop ends because every fetch moves the server's cursor |
| FindFiles.Finder.FindFirst | dos/src/serdfs.c:844-951 | the first entry of a new snapshot that passes, or error 2; where LIST_DIR succeeds one slot more is taken |
| FindFiles.Finder.FindNext | dos/src/serdfs.c:844-951 | resumes from the DTA: the next entry that passes, or error 18 |
| FindFiles.DirRequest | dos/src/serdfs.c:218-226 | the directory part of the path up to its last backslash, at most 63 bytes of it |
| Directories.PayloadNamesDirectory | dos/src/serdfs.c:218-226 | the request names what is between the drive and the last backslash, that included |
| Directories.SearchFindsDirectory | dos/src/serdfs.c:855-895 | a search in a directory given by its aliases lists the snapshot of exactly that directory, at every depth |
| Directories.SearchVerdict | dos/src/serdfs.c:844-951 | if every entry packs, the blocks found are those of the names in that directory that match and are files or wanted directories, each with its kind, size and stamps, and no others |
| FindFiles.FindAll | dos/src/serdfs.c:844-951 | FINDFIRST and FINDNEXT until one fails deliver exactly the entries of the snapshot that pass, in order and once each, and nothing where LIST_DIR fails; the server's slot stays taken |
| FindFiles.FindMany | dos/src/serdfs.c:844-951 | the same search run n times finds the same each time until every slot is taken, and nothing ever after |
| FindFiles.FullTableFails | linux/serdfsd/handles.py:45-50 | with every slot taken OPEN, CREATE and LIST_DIR fail for every request |
| Repeats.OpensRepeat | linux/serdfsd/fsops.py:196-236 | OPEN of a file executed n times takes n slots as long as there are any, each for a handle of its own that reads the file, and changes nothing else |
| Repeats.OpenResults | linux/serdfsd/fsops.py:196-236 | the j-th execution succeeds if and only if j slots were free, with the least free one |
| Repeats.OpenedOnAnyLine | dos/src/serdfs.c:631-687 | on any line the handle AL_OPEN hears reads the file, in a slot that was free; one slot is taken per execution as long as there are any |
| Repeats.CreatesRepeat | linux/serdfsd/fsops.py:315-361 | CREATE in mode 1 executed n times takes n slots as long as there are any |
| Repeats.CreatedOnAnyLine | dos/src/serdfs.c:690-736 | on any line the handle AL_CREATE hears writes an empty file from its start, in a slot that was free; one slot is taken per execution as long as there are any |
| Repeats.CreateNewRepeats | linux/serdfsd/fsops.py:315-361 | behind a CREATE in mode 0 that succeeded every further execution says that the file exists and changes nothing |
| Repeats.AbandonedArmsVerdict | dos/src/serdfs.c:631-736 | an open arm that fails on any line leaves what was in the slots alone and up to ten slots more taken |
| Repeats.ListingsRepeat | linux/serdfsd/fsops.py:122-155 | LIST_DIR executed n times takes n slots as long as there are any, and finds the same snapshot each time |
| Repeats.BatchesRepeat | linux/serdfsd/fsops.py:158-193 | LIST_DIR_NEXT executed n times, with entries left each time, sends n consecutive batches and moves the cursor behind them, so all but the one that is heard are skipped |
| Repeats.EndRepeats | linux/serdfsd/fsops.py:158-173 | at the end of a listing the first execution says so and frees the slot, and the later ones find no such handle |

## Left out

- ServerRuns.RunVerdict: other programs on the host may change the tree and the file contents between requests, but keep the tree consistent.
- FsOps.SetAttr: permissions are not modelled, so it only checks the request and the path, and GET_ATTR never reports read-only.
- FsOps.RemoveDir: the served root stays; the source would remove it if it were empty.
- Opening.TimesComeBack: instants are whole seconds, so what rounding does to fractions of a second is not modelled, nor are instants before the year 1.
- Files.Touched: adding, removing or renaming an entry stamps its directory; saving the name map does not stamp the root.
- Handles.HandleTable.Update: stands for assignments to the fields of a handle; handles are values in the slots, so two names for one handle object are not modelled.
- Rpc.Line.Send: assumes that a request that arrives is whole and that junk is recognisable as such; misaligned serial data and CRC collisions outside the proved error classes are not modelled.
- Rpc.Client.SerialRpc: after a timeout the status is the caller's old value in the source; the model promises nothing about it.
- Redirector.Tsr.ReadFile: says what the DTA holds for files below 4 GiB or reads that end below it; 32-bit offsets wrap above.
- Redirector.Tsr.WriteFile: says nothing about the size field once the position has wrapped at 4 GiB.
- Protocol.RepliesAreFresh: needs replies less than 255 calls late, which is exact; the UART, timer ticks and draining are only present as frames that get lost.
- FindFiles.Finder.Search: for a line without losses and one search at a time; LIST_DIR_NEXT is not safe to repeat.
- FindFiles.Finder.FindFirst: asks for a directory part that fits the source's 65-byte buffer.
- FindFiles.DirRequest: asks for the same.
- FindFiles.FindAll: asks for the same.
- FindFiles.FindMany: asks for the same.
- OpenArms.OpenFile: SFT fields without a role in these properties (handle count, attribute, device word, name) are not modelled.
- OpenArms.ExtendedOpen: for a line without losses; what repetition does to its OPEN and CREATE is in Repeats.dfy.
- Files.WriteFd: the whole buffer is written, as on a regular file with room; full disks and file-name length limits are not modelled.
- PathJail.ResolvePath: stops before realpath and the last check, which are in Jail.dfy; the server has no symbolic links and a root other than "/", where by Jail.WithoutLinks they change nothing.
- Jail.NothingOutsideTheRoot: realpath is a parameter; links that change between the check and the use of a path are not modelled.
- NameMapRuns.NameMap.Scan: entries whose stat fails and directories that cannot be read are not modelled.
- Daemon.Server.Dispatch: permission and other errors of the system calls behind OPEN, CREATE, DELETE, RMDIR, MKDIR, RENAME and SET_TIME are not modelled.
- Effects.RenameVerdict: speaks of real paths; which DOS paths lead to them depends on names equal up to case, as for DELETE.
- MainLoop.ServeAll: serves what arrives before one silence; MainLoop.ServeBursts goes on from there. Signals and failing writes to the line are not modelled.
- NameMapRuns.NameMap.SaveIfDirty: saving and loading is the identity on the map; JSON, the temporary file, corrupt files and the map file's own place in the tree are not modelled.
- Daemon.Server.constructor: starts from a well-formed saved map, as the daemon itself writes it; a map edited by hand is not modelled.
- Names.Upper: names are ASCII; other characters keep their case.
- DISKSPACE, GETATTR, SETATTR, CMMTFIL and the locking arms of the redirector, which are single calls or constants.
- Interrupt hooking, stack switching, installation, the status bar, UART programming, and the stand-alone tools and echo server.
