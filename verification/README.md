# Verified model of the NintyShell plugin

NintyShell is a terminal, SFTP and Docker panel for DBX: a Go sidecar process
(`backend/`) that talks to the host over framed messages, and one HTML page
(`ui/`). This project models the parts of it where bytes and threads meet, and
proves what those parts are for.

Two kinds of code carry the difficulty:

- **Control information inside byte streams.** Working-directory reports (OSC 7),
  marker lines, the root SFTP handshake and binary frames all travel inside
  streams that arrive in arbitrary pieces, through buffers that are trimmed on the
  way. For each of them a one-shot specification on the whole stream is stated, and
  the incremental code is proved to agree with it for every chunking, or exactly
  when it does is proved.
- **Sessions shared between goroutines.** Every locked region is one atomic step of
  a state machine; process results, timers and I/O are nondeterministic. Theorems
  are about every run of the machine.

`dafny verify dfyconfig.toml` checks everything.

## Modules

| module | what it models |
|---|---|
| Search, Decimal, Options, Bytes, Histories | substring search with Go's conventions, decimal numbers, small types, event logs |
| Osc7 | the OSC 7 scanner: whole-stream parse, incremental scanner, exact chunk independence |
| CwdPaths, CwdFollow, CwdReports | report payload to native path, the session directory, prompts end to end |
| Handshake | the two marker waits of the root SFTP handshake and the rebuilt readers |
| StreamWriter | the two capped output sinks |
| RingMeta, UiFilter, RemoteExec | the trailer of a remote command: printed, kept, parsed back, and hidden in the view |
| Framing | the framed transport of the plugin SDK, one emitter or many |
| Quoting | shell quoting under one and two evaluations |
| SessionSlot | exec, wait, cancel, escalation and shutdown of one session |
| PtyEvents | terminal read loop, silent-output watcher, fallback, shutdown |
| Registry | connect and disconnect: who owns which session object |
| Locks | lock order and deadlock freedom of all handlers |
| RemoteTree | recursive delete on a file system with links |
| Paging | the cursor-paged directory listing, and what the URIs in it mean |

Text is modelled as `string` with one `char` per byte, except in Handshake and
Framing, which use a `byte` type.

## Where the code keeps less than one might expect

These are results of the model, each proved with its exact condition:

- The OSC 7 scanner is independent of chunking exactly for streams in which every
  completed report stayed within 8192 bytes until its last byte; otherwise some
  two-chunk split loses a report (`Osc7.ChunkIndependence`).
- A POSIX directory survives its own report exactly when no byte of it ends the report
  early (BEL, or `ESC \`), the report fits 8192 bytes, the path has no trailing white
  space and percent-decoding leaves it alone: the reporter prints it raw, the scanner
  cuts at the first terminator and the reader decodes (`CwdReports.PosixReportArrives`).
- The trailer gives the directory back exactly under `RingMeta.Survives`: it fits the
  ring together with what comes after it, nothing but line ends comes after it, and the
  directory has no newline, no final CR and no copy of the tag. A process that the
  command left behind and that still prints a line therefore hides the trailer.
- The view hides the whole trailer exactly when the directory has no newline; the
  directory's later lines are shown (`RemoteExec.TrailerHidden`, with an input in
  `RemoteExec.NewlineShows`).
- The view hides exactly the marker lines if and only if no marker follows text that
  may already have been shown (`UiFilter.ChunkIndependence`).
- Even on a tame stream, on which no report is lost, the session directory at the end
  depends on how the stream is cut into reads, unless the last report names a directory
  or no report names a new one (`CwdFollow.DirectoryIsIndependent`): one read only uses
  its last report.
- The escalation after a cancel re-reads the cancel function. It signals its own command
  exactly when that command still owns the slot and no shutdown came since the cancel;
  otherwise it signals the next command, once that is installed, or nobody
  (`SessionSlot.EscalationTarget`, and as a test of the fields
  `SessionSlot.EscalationTest`). The comment at `backend/main.go:591` and the
  repository's README promise SIGKILL for the cancelled command after three seconds. On
  Unix the cancel function of a local command only sends SIGINT again
  (`backend/proc_unix.go:15-20`), and `killGroup` is never called. The model follows the
  code.
- A shutdown signals the owner of the slot only from the moment its cancel function is
  installed (`SessionSlot.ShutdownTarget`). A command that is accepted but not yet
  installed is not signalled and goes on running
  (`SessionSlot.ShutdownCanMissTheCommand`).
- `shell/legacy-fallback` can follow `shell/pty-closed`, never the other way round. It
  does exactly when the terminal printed nothing before the watcher woke and the session
  was not stopped before the watcher was done (`PtyEvents.FallbackAfterCloseIff`). Output
  that only arrives after the watcher woke does not prevent a fallback.
- The repository's README says output beyond 4 MB is truncated; the flag is also set
  when the output is exactly as long as the limit and nothing is lost
  (`StreamWriter.SinksCompared`).
- A recursive delete of a link to a directory empties that directory and then fails;
  such a link can never be deleted, and neither can a directory under a path that runs
  through something inside it. `RemoteTree.Deletable` is the exact condition for every
  path (`RemoteTree.Server.Delete`).
- The guard of a delete request compares the spelling of the path with `""` and `"/"`.
  Under any other absolute spelling made of slashes and dots, such as `"//"` or `"/."`, a recursive
  request deletes everything in the file system and then fails
  (`RemoteTree.RootIsEmptied`).
- An entry whose name ends in white space is listed under a URI that means another entry,
  because paths are trimmed when they come back (`Paging.ListedUriLeadsBack`,
  `Paging.ListedUriCanMeanAnother`).
- A listing limit strictly between 0 and 1 becomes 0, and a nonempty directory is
  then never listed to its end (`Paging.FinishesIff`).

## Model

| member | source | states |
|---|---|---|
| Osc7.FindTerminator | backend/localpty.go:80-90 | the terminator loop finds the first BEL or `ESC \`, and nothing when the payload is still open |
| Osc7.CutReport | backend/localpty.go:71-101 | one round of the loop finds the first report of the buffer, an unterminated one, or none |
| Osc7.Remainder | backend/localpty.go:72-98 | what a call keeps is the trimmed residue of the whole parse |
| Osc7.Osc7Scanner.Feed | backend/localpty.go:67-103 | one call extracts exactly the reports a left-to-right parse of carry and chunk contains, returns the last one, keeps the trimmed residue, and ends in a bounded state |
| Osc7.TrimIsBounded | backend/localpty.go:72-99 | whatever was fed, including runaway payloads, the scanner holds at most 8196 bytes: at most 64 bytes without a marker, or one report that starts with the marker and is not terminated |
| Osc7.KeptInNumbers | backend/localpty.go:72-98 | what is kept: without a marker the last 64 bytes, with an unterminated report all of it up to 8196 bytes, and nothing beyond |
| Osc7.ParseAppend | backend/localpty.go:67-103 | parsing a stream in two steps, the second from the residue of the first, is parsing it at once |
| Osc7.SplitAfter | backend/localpty.go:67-103 | a stream cut right after any of its reports carries nothing over the cut |
| Osc7.TrimSound | backend/localpty.go:72-99 | dropping the front of the carry, or a runaway payload, loses no report a tame stream can still complete |
| Osc7.FeedAllIsParse | backend/localpty.go:67-103 | on a tame stream every list of chunks extracts the same payloads, those of the one-shot parse |
| Osc7.LosingSplit | backend/localpty.go:91-99 | every stream that is not tame has a two-chunk split on which a report is lost |
| Osc7.ChunkIndependence | backend/localpty.go:60-103 | the scanner extracts the reports of a stream under every chunking if and only if no completed report ever exceeded the cap before its last byte |
| CwdPaths.UnescapeEscape | backend/localpty.go:116-118 | percent-decoding undoes percent-encoding for every byte string (RFC 3986, section 2.1) |
| CwdPaths.PosixRoundTrip | backend/localpty.go:107-131 | the payload with a path printed raw after `file://` is turned back into the path exactly when it has no trailing white space and decoding leaves it alone |
| CwdPaths.WindowsRoundTrip | backend/localpty.go:107-131 | the payload with a percent-encoded Windows path is turned back into the path exactly when that is a drive path without forward slashes |
| CwdPaths.PathFits | backend/localpty.go:107-131 | a POSIX path is never longer than the payload it comes from |
| CwdPaths.HostIsDropped | backend/localpty.go:110-115 | whatever stands between `file://` and the first slash, the host, does not matter |
| CwdPaths.HostWithoutScheme | backend/localpty.go:108-115 | nor does a host in front of a path without a scheme |
| CwdPaths.SchemeIsOptional | backend/localpty.go:105-109 | a bare absolute path means what it means behind `file://` |
| CwdPaths.PosixDecoded | backend/localpty.go:107-131 | on POSIX any percent-encoding of an absolute path, its slashes encoded or not, gives that path, and an encoding of any other text gives nothing |
| CwdPaths.DriveDecoded | backend/localpty.go:119-127 | on Windows any percent-encoding of a drive path behind a slash, its backslashes written as slashes, gives the drive path with backslashes, and a path without a drive gives nothing |
| CwdPaths.RawDrive | backend/localpty.go:119-127 | the same for such a path printed raw |
| CwdPaths.OnlyAbsolutePaths | backend/localpty.go:119-131 | whatever the payload, the result is empty or a native absolute path |
| CwdPaths.DecodingEncodes | backend/localpty.go:116-118 | whatever is decoded was an encoding of the result, byte by byte |
| CwdPaths.MalformedEscapes | backend/localpty.go:116-118 | decoding fails exactly when some `%` is not followed by two hexadecimal digits |
| CwdPaths.HexDigits | backend/localpty.go:116-118 | these are the digits of both cases, with their values |
| CwdPaths.WhiteSpaceAround | backend/localpty.go:108 | white space around a payload does not matter |
| CwdPaths.TrimSpaceCuts | backend/localpty.go:108 | trimming cuts off white space at both ends, all of it and nothing else |
| CwdPaths.SpaceRunes | backend/localpty.go:108 | white space is what Unicode's White_Space property says, in UTF-8 (RFC 3629, section 3) |
| CwdFollow.Terminal.EmitCwd | backend/localpty.go:135-161 | the directory becomes the named one, if there is one, and exactly a change adds one `shell/cwd-changed` with the new directory |
| CwdFollow.Terminal.AdoptExitDirectory | backend/main.go:713-721 | a finished command's directory is adopted when there is one, without an announcement |
| CwdFollow.Terminal.ReadLoop | backend/localpty.go:217-250 | the read loop on any list of reads leaves the directory and log the specification says |
| CwdFollow.FollowAnnounces | backend/localpty.go:151-160 | for any input in any pieces, what is added to the log is one `shell/cwd-changed` for every read that moves the session, in order, with the directory it moves to |
| CwdFollow.FollowKeepsLog | backend/localpty.go:151-160 | nothing is taken back from the log, and reports add nothing else to it |
| CwdFollow.FollowCoherent | backend/localpty.go:135-161 | for any input in any pieces, no announcement repeats the directory that held just before it, and the directory is always the last one logged |
| CwdFollow.ExitCoherent | backend/main.go:713-721 | directories adopted from finished commands keep that coherence |
| CwdFollow.FollowsLast | backend/localpty.go:217-250 | when the last extracted payload names a directory the session ends there, whatever the payloads before it say; without payloads it stays where it is |
| CwdFollow.EndToEnd | backend/localpty.go:217-250 | on a tame stream whose last report names a directory the session ends there under every chunking |
| CwdFollow.CutAfterReport | backend/localpty.go:217-250 | when the last report names nothing, any report that does can decide the final directory, if a read ends right after it |
| CwdFollow.DirectoryIsIndependent | backend/localpty.go:217-250 | on a tame stream the final directory is the same for every chunking if and only if the last report names a directory or none names another one than the current |
| CwdReports.ParsesPrompts | backend/localpty_unix.go:98 | a stream of prompts with marker-free output between them is tame and parses into exactly the printed payloads |
| CwdReports.SessionFollowsPrompts | backend/localpty.go:217-250 | after a stream of reports, cut into reads in any way, the session directory is the one the last report names; the earlier reports may say anything |
| CwdReports.PosixPromptWellFormed | backend/localpty_unix.go:98 | the POSIX reporter's output is well formed for every absolute path without terminator, trailing white space or decodable escapes, up to the cap |
| CwdReports.WindowsPromptWellFormed | backend/localpty.go:48-58 | the PowerShell reporter's output is well formed for every drive path whose encoding fits the cap |
| CwdReports.UnbrokenArrives | backend/localpty.go:67-131 | a report without a terminator inside brings the session to its directory, from anywhere and under every chunking, if and only if it fits the cap and names the directory |
| CwdReports.BrokenIsShorter | backend/localpty.go:79-101 | the report of a path that contains a terminator only yields shorter paths |
| CwdReports.PosixReportArrives | backend/localpty_unix.go:98 | for every absolute path: its raw report brings the session to it under every chunking if and only if it holds no terminator, fits the cap, has no trailing white space and nothing that decoding changes |
| CwdReports.WindowsReportArrives | backend/localpty.go:48-58 | the same for the encoded report of every Windows path: if and only if it is a drive path without forward slashes whose encoding fits the cap |
| Handshake.DetectsAcrossTrim | backend/root.go:360-375 | a marker is found at the same place whether or not the buffer was trimmed to the marker's length before |
| Handshake.Stdout.Read | backend/root.go:357 | a read delivers some front part of the output that is still to come, of any length up to the buffer |
| Handshake.Examine | backend/root.go:359-375 | after a nonempty read either the marker is cut out at its first occurrence with a tail shorter than the read, or the search goes on with a buffer that may have been trimmed, or the trim slices out of range, exactly when the full buffer is shorter than the marker |
| Handshake.ReadUntilOutputMarker | backend/root.go:352-383 | for every chunking the marker is found if and only if it is in the output, at its first occurrence, and the tail (shorter than one read) plus what is unread is everything after it; an empty marker is found in the first read; only a marker over 65537 bytes can make it panic |
| Handshake.WaitForOutputMarker | backend/root.go:332-350 | the same under a timer that may win; when it does not, a marker of at most 65537 bytes is found exactly when it is in the output; an empty marker is refused |
| Handshake.Input.Read | backend/root.go:462-465 | a read through the rebuilt reader loses nothing, and one read of sufficient size drains the bytes put in front |
| Handshake.OpenRootSftp | backend/root.go:447-482 | the protocol client gets exactly the bytes after the first server marker that follows the first auth marker, none lost or repeated; failure without a timeout means a marker is missing; when no timer wins and the password is written, markers of at most 65537 bytes make it ready exactly when both are there |
| Handshake.ClientGetsPayload | backend/root.go:447-482 | if neither marker shows up early, those bytes are what the remote sends after the second marker |
| StreamWriter.StreamWriter.Write | backend/main.go:855-878 | one write advances prefix, count, flag and ring as specified and reports the full length |
| StreamWriter.StreamWriterTheorem | backend/main.go:855-878 | for every sequence of writes: the first min(total, limit) bytes forwarded, the last min(total, ring) bytes kept even past the limit, `truncated` exactly when a positive limit is reached |
| StreamWriter.OutcomeInWords | backend/main.go:855-878 | what that is: the first bytes up to the limit, the last bytes up to the ring's size, and the flag from a positive limit on |
| StreamWriter.LimitedBuffer.Write | backend/dockerapi.go:172-184 | one write extends the kept prefix up to the limit and flags any excess |
| StreamWriter.KeepAllOutcome | backend/dockerapi.go:172-184 | for every sequence of writes the buffer keeps the first min(total, limit) bytes and is flagged exactly when the total exceeds the limit |
| StreamWriter.SinksCompared | backend/dockerapi.go:163-184 | on the same bytes, however split, both sinks keep the same prefix; under a positive limit their flags differ exactly when the output ends at the limit |
| Decimal.ValueDigits | backend/fsprovider.go:285-291 | printing and reading a natural number is the identity |
| Decimal.DigitsArePlaces | backend/fsprovider.go:123 | numbers are printed with their decimal places from right to left and without a leading 0 |
| Decimal.AtoiDigits | backend/main.go:955-958 | an exit code up to the 64-bit maximum is read back |
| RingMeta.NoLaterTag | backend/main.go:942-950 | the tag has no second occurrence on its own marker line: it does not overlap itself, the exit code or a tag-free directory |
| RingMeta.ParsesLine | backend/main.go:941-960 | a ring whose marker line is intact and followed by line ends only parses, also when the ring starts exactly at the tag |
| RingMeta.ParsedIsClean | backend/main.go:941-960 | a parsed directory never contains a newline, ends in CR or contains the tag |
| RingMeta.LateLineHides | backend/main.go:943-950 | any tag-free visible text after the trailer makes the ring yield nothing |
| RingMeta.TrailerRoundTrip | backend/ssh.go:26-37 | for every output, every tag-free late output and all write sizes, the ring gives back exactly the printed exit code and directory if and only if only line ends come late, everything from the tag on fits the ring, and the directory has no newline, no final CR and no copy of the tag |
| RingMeta.TrailerInNumbers | backend/ssh.go:33-35 | the text of the output with its trailer, and that without late output the salt, the digits and the directory may have 8175 bytes together |
| UiFilter.View.StreamChunk | ui/index.html:915-930 | one chunk appends what the specification says; what is held back afterwards could still become, or already starts, a marker line, and without a marker nothing is |
| UiFilter.View.FlushStreamTail | ui/index.html:932-938 | the final flush shows the pending text unless there is a marker and the text starts with it |
| UiFilter.View.Stream | ui/index.html:912-938 | any list of chunks and the final flush show what the specification says |
| UiFilter.NoMarkerShowsAll | ui/index.html:922-925 | without a marker, as in a local session, everything is shown, whatever the chunks |
| UiFilter.FilterByLine | ui/index.html:918-923 | with a marker the filtered stream is the list of the lines that do not start with it; without one it is the stream |
| UiFilter.ShowsOtherLines | ui/index.html:915-938 | on a tame stream exactly the lines that start with the marker are missing from the view, whatever the chunks |
| UiFilter.DisplayIsFilter | ui/index.html:914-938 | on a tame stream the text shown is the stream without its marker lines, although partial lines are shown early |
| UiFilter.LosingChunks | ui/index.html:925-928 | a marker after text that was shown early makes some chunking hide the wrong text |
| UiFilter.ChunkIndependence | ui/index.html:912-938 | every chunking shows exactly the filtered stream if and only if the stream is tame |
| UiFilter.LineStartsAreTame | ui/index.html:912-938 | streams whose markers only start lines are tame |
| RemoteExec.TagPosition | backend/ssh.go:35 | in all that is written, late output included, the tag occurs at the start of the trailer and nowhere else, if output, directory and late output do not contain it |
| RemoteExec.FilterOfPrefix | backend/main.go:863-876 | the filter on a capped prefix leaves the output, the start of the tag if the cap falls inside it, and what the cap leaves of the later lines of the directory and of the late output |
| RemoteExec.EndToEnd | backend/ssh.go:22-37 | for all write sizes and all chunkings at once: the user sees exactly that, while the session gets exit code and directory back exactly when the directory survives |
| RemoteExec.TrailerHidden | ui/index.html:919-923 | below the cap the user sees nothing of the trailer if and only if the directory has no newline |
| RemoteExec.NewlineShows | ui/index.html:919-923 | an input on which part of the trailer is shown, under every chunking |
| Framing.Emitter.WriteFrame | backend/third-party/dbx-plugin-sdk/sdk.go:136-157 | one frame is appended: the kind, the length of the payload in four bytes, the highest first, and the payload; or nothing |
| Framing.Emitter.WriteJson | backend/third-party/dbx-plugin-sdk/sdk.go:117-134 | a JSON payload within the limit becomes one frame, or one line without framing; a longer one is refused |
| Framing.Emitter.WriteBinary | backend/third-party/dbx-plugin-sdk/sdk.go:89-105 | channel and data are packed into one frame exactly when the transport is framed, the channel is valid and the data within the limit |
| Framing.Uint32RoundTrip | backend/third-party/dbx-plugin-sdk/sdk.go:142 | a length is read back from its four bytes |
| Framing.WireFormat | backend/third-party/dbx-plugin-sdk/sdk.go:98-104 | the bytes of every accepted message: 0 for JSON and 1 for binary, the length with the highest byte first, the payload; in a binary payload the length of the channel's name, the high byte first, the name, the data |
| Framing.AcceptedInWords | backend/third-party/dbx-plugin-sdk/sdk.go:90-124 | JSON up to 8 MiB is accepted, and binary data up to 64 MiB on a valid channel |
| Framing.NameInWords | backend/third-party/dbx-plugin-sdk/sdk.go:392-406 | a channel name is 1 to 256 letters, digits and `._:/-` and starts with a letter or digit |
| Framing.FrameIff | backend/third-party/dbx-plugin-sdk/sdk.go:250-276 | a frame is read exactly when the input starts with 0 or 1, announces no more than its kind allows and holds it all; the rest is left |
| Framing.StopIff | backend/third-party/dbx-plugin-sdk/sdk.go:250-276 | why reading ends, each reason exactly when the bytes give it: no whole header, an unknown kind, a length beyond what the kind allows, a payload not all there |
| Framing.DispatchIff | backend/third-party/dbx-plugin-sdk/sdk.go:324-342 | a binary payload delivers a channel and data exactly when it is the payload they make; otherwise it is refused |
| Framing.DispatchBinary | backend/third-party/dbx-plugin-sdk/sdk.go:324-341 | a packed binary payload splits into the same channel and data |
| Framing.Pipe.ReadFull | backend/third-party/dbx-plugin-sdk/sdk.go:252-274 | the full read delivers all the bytes asked for, or fails with fewer |
| Framing.ServeFramed | backend/third-party/dbx-plugin-sdk/sdk.go:249-285 | the read loop delivers exactly the messages of the input, and stops for the reason, that the specification says |
| Framing.NextIsEncoded | backend/third-party/dbx-plugin-sdk/sdk.go:260-274 | every frame the emitter accepts is within the reader's size limit and is read back unchanged, whatever follows |
| Framing.RoundTrip | backend/third-party/dbx-plugin-sdk/sdk.go:249-285 | reading the output of any sequence of accepted messages gives back those messages in order |
| Framing.ServeMonotone | backend/third-party/dbx-plugin-sdk/sdk.go:249-285 | on any input at all, a byte prefix delivers a prefix of the messages |
| Framing.PrefixOfStream | backend/third-party/dbx-plugin-sdk/sdk.go:251-274 | wherever the emitter's stream breaks off, a prefix of the messages was delivered and no protocol error seen |
| Framing.StepKeepsWire | backend/third-party/dbx-plugin-sdk/sdk.go:143-150 | each step of concurrent writers keeps mutual exclusion and whole frames up to the current header |
| Framing.ConcurrentFrames | backend/third-party/dbx-plugin-sdk/sdk.go:136-157 | with any number of emitters in any interleaving the reader gets whole frames in one order, and no protocol error |
| Quoting.QuoteRoundTrip | backend/ssh.go:39-41 | for every string, the shell reads the quoted value as one word equal to it (POSIX.1-2017 Shell Command Language, sections 2.2.1 and 2.2.2) |
| Quoting.LexPieces | backend/ssh.go:39-41 | any line composed of plain words, quoted values and operators splits into exactly the intended tokens |
| Quoting.SuArguments | backend/root.go:233 | `su` gets exactly the intended arguments, the script verbatim as the last one |
| Quoting.TwoLevels | backend/root.go:427-432 | both evaluations of the escalation line: the outer one hands over the inner script verbatim, the inner one yields the marker and the server path verbatim |
| Quoting.ChangesToSavedDirectory | backend/ssh.go:29-31 | the saved directory reaches `cd` verbatim, whatever it contains |
| Quoting.AnnouncesReady | backend/root.go:136-138 | whatever the command, a root script first prints its ready marker verbatim, and the command follows on a line of its own |
| Quoting.RootScriptText | backend/root.go:136-142 | the text of a root script: the announcement, the command, its status saved, the report with the status behind the done marker, the exit with that status |
| Quoting.ServerScriptText | backend/root.go:427-429 | the text of the script that becomes the SFTP server |
| Quoting.EscalateText | backend/root.go:430-432 | the text of the line that runs a script as another user |
| SessionSlot.ShellSession.TryClaim | backend/main.go:516-525 | a command is accepted exactly when the slot is free, and then holds it with a cleared cancel flag |
| SessionSlot.ShellSession.AbandonStart | backend/main.go:534-537 | a failed start frees the slot and nothing else |
| SessionSlot.ShellSession.InstallRun | backend/main.go:541-544 | a started command installs its cancel function and done channel |
| SessionSlot.ShellSession.FinishRun | backend/main.go:713-721 | a finished command frees the slot and reports cancelled only after a failed wait |
| SessionSlot.ShellSession.TryCancel | backend/main.go:574-582 | a cancel is accepted exactly when a command with a cancel function holds the slot, and targets that function |
| SessionSlot.ShellSession.BeginShutdown | backend/main.go:206-210 | shutdown takes the cancel function away and silences the session |
| SessionSlot.StepKeeps | backend/main.go:497-549 | every step keeps the history lawful and the fields a mirror of it |
| SessionSlot.EveryRunIsLawful | backend/main.go:497-600 | in every interleaving `busy` holds exactly when one command owns the slot, a cancel function belongs to that owner, and every event concerns the right command |
| SessionSlot.AcceptedWhenFree | backend/main.go:516-525 | in every run a command is accepted only while none owns the slot |
| SessionSlot.ArmedByOwner | backend/main.go:541-544 | and a cancel function is installed once, for the owner |
| SessionSlot.CancelledExits | backend/main.go:713-723 | an exit reports cancelled exactly when a cancel was accepted while that very command owned the slot and its wait then failed |
| SessionSlot.CommandsAreConserved | backend/main.go:516-546 | accepted commands are start failures plus releases plus one if busy |
| SessionSlot.OneExitPerCommand | backend/ssh.go:449-480 | no command exits twice, a failed start never exits, and every other command has exited once its threads are done |
| SessionSlot.EscalationTarget | backend/main.go:585-599 | in every run an escalation signals exactly the owner of the slot that has installed its cancel function with no shutdown since, and nobody if there is none; its own command exactly when that still owns the slot and no shutdown followed the accepted cancel |
| SessionSlot.EscalationTest | backend/main.go:585-599 | the same as a test of the fields: it signals its own command exactly when there is a cancel function and the session's done channel is its own |
| SessionSlot.EscalationCanReachTheNextCommand | backend/main.go:585-599 | a run in which the timer of one command signals the next one |
| SessionSlot.EscalationCanReachNobody | backend/main.go:206-210 | a run in which it signals nobody although its command still owns the slot, because of a shutdown |
| SessionSlot.ShutdownTarget | backend/main.go:205-213 | in every run a shutdown signals exactly the owner of the slot that has installed its cancel function with no shutdown since, and nobody if there is none |
| SessionSlot.StoppedOnlyByShutdown | backend/main.go:205-213 | in every run a session is silenced exactly when it was shut down, by no failed start and no cancel |
| SessionSlot.ShutdownCanMissTheCommand | backend/main.go:541-544 | a run in which a command accepted before the shutdown is installed after it and goes on running |
| PtyEvents.PtySession.EndReading | backend/localpty.go:236-247 | a read loop announces the end of its shell exactly when the session is not stopping |
| PtyEvents.PtySession.FallBack | backend/main.go:460-474 | a fallback is decided exactly for a live terminal of a session that is not stopping, and is remembered for the connection |
| PtyEvents.PtySession.BeginShutdown | backend/main.go:206-210 | shutdown marks the session as stopping and leaves the rest |
| PtyEvents.PtySession.Input | backend/ssh.go:353-364 | typed text is delivered to an open terminal, refused without one, and answered with an error after the announced end |
| PtyEvents.TypingIff | backend/ssh.go:353-364 | in every run typed text reaches the terminal exactly while it was opened, its end was not announced and the session did not fall back |
| PtyEvents.StepKeeps | backend/localpty.go:236-266 | every step keeps the event history lawful and the flags a mirror of it |
| PtyEvents.Protocol | backend/localpty.go:236-266 | over all runs each session decides at most one pty-closed and one fallback, neither after it was stopped, and no pty-closed after a fallback |
| PtyEvents.NoTerminalAfterFallback | backend/main.go:416-424 | any connect whose check follows a fallback on that id opens no terminal |
| PtyEvents.KnownBadOnlyByFallback | backend/main.go:416-424 | only a fallback makes a connection known to be bad |
| PtyEvents.FallbackWasSilent | backend/localpty.go:251-266 | a fallback is decided only for a terminal without output before the watcher woke and a session not stopped until then |
| PtyEvents.FallbackIff | backend/localpty.go:254-266 | once the watcher is done, the session has fallen back if and only if there was no output before the wake-up and no stop before the watcher was done |
| PtyEvents.FallbackAfterCloseIff | backend/main.go:460-474 | exactly then a fallback follows an announced end of the shell; if the shell ended before the wake-up, the terminal must never have printed |
| PtyEvents.FallbackAfterClose | backend/localpty.go:254-266 | a run in which the fallback follows pty-closed |
| Registry.Plugin.Replace | backend/main.go:388-396 | connect installs the new session and hands the previous one to its caller |
| Registry.Plugin.Remove | backend/main.go:487-490 | disconnect takes the session out and hands it to its caller |
| Registry.StepKeeps | backend/main.go:388-396 | every step keeps each session in exactly one place |
| Registry.EachSessionHasOnePlace | backend/main.go:482-495 | in every interleaving each installed session is registered, held by one thread about to shut it down, or shut down; never two of these, and never shut down twice |
| Registry.NothingLeaks | backend/main.go:388-396 | when all handlers are done, the sessions not shut down are exactly the registered ones |
| Locks.SftpClient | backend/ssh.go:667-692 | the SFTP client is set up under its mutex, which only nests the dead flag's |
| Locks.EnsureRemoteData | backend/ssh.go:486-534 | the remote-data mutex comes before SFTP, and SFTP before the dead flag |
| Locks.Shutdown | backend/main.go:205-242 | shutdown takes its mutexes one after the other |
| Locks.FallbackSession | backend/main.go:460-475 | the session mutex comes before the plugin mutex |
| Locks.Body | backend/main.go:263-336 | every request handler and every goroutine takes nested locks strictly upwards in one order |
| Locks.HandlersTake | backend/main.go:263-336 | which mutexes each handler can take, no others and none of these in vain |
| Locks.HandlersNest | backend/main.go:461-472 | which mutexes each handler can take inside which: the plugin's in the session's for a fallback; SFTP and the dead flag's in the remote data's and the dead flag's in SFTP's for completion and file access; no others |
| Locks.HandlersRead | backend/main.go:143-147 | only the dead flag's mutex is ever taken as a read lock, by the handlers that ask for the flag |
| Locks.AdvanceKeeps | backend/main.go:80-118 | a step of any thread keeps its held locks climbing and its releases matched |
| Locks.NoDeadlock | backend/main.go:80-118 | in no run of any number of handlers does a set of threads wait for each other's mutexes, read locks and waiting writers included |
| Locks.SomeoneCanStep | backend/main.go:80-118 | as long as a handler has something left to do, some handler can step |
| Locks.MutualExclusion | backend/main.go:80-118 | in every run no two threads hold the same mutex, unless both only read |
| Locks.OppositeOrdersDeadlock | backend/main.go:461-472 | without the order a deadlock is reachable: two threads nesting the session's and the plugin's mutex in opposite orders |
| RemoteTree.WhereShrinks | backend/sftpapi.go:134-150 | deleting nodes never makes a path lead to another place |
| RemoteTree.PlainPath | backend/sftpapi.go:134-150 | a directory named by its own location resolves to itself whatever is deleted inside it |
| RemoteTree.Server.ReadDir | backend/sftpapi.go:135 | one entry per child with its kind, in any order, following links in the path; or a refusal |
| RemoteTree.Server.Stat | backend/sftpapi.go:114-117 | the node a path leads to, through links, and whether it is a directory; or a refusal |
| RemoteTree.Server.Remove | backend/sftpapi.go:145 | removes the named node itself, a file or a link, or nothing |
| RemoteTree.Server.RemoveDirectory | backend/sftpapi.go:149 | removes an empty directory, never a link, or nothing |
| RemoteTree.Server.RemoveTree | backend/sftpapi.go:134-150 | terminates on every finite tree with links; success means exactly that subtree is gone; failure part way has removed nodes of that subtree only; without refusals it succeeds exactly when the path names the directory, not a link to it, and runs through nothing inside it |
| RemoteTree.FinalRemoval | backend/sftpapi.go:149 | if removing the directory itself succeeds, nothing of the subtree is left and everything else is unchanged |
| RemoteTree.Server.Delete | backend/sftpapi.go:100-132 | for every spelled path: exactly the named subtree goes, or nothing, or something inside the directory the path leads to; what it succeeds on without refusals, as an if-and-only-if |
| RemoteTree.OnlyNamedGoes | backend/sftpapi.go:100-132 | unless the path leads to a directory it does not name (through a final link, dot or double dot), only the named node and what is below it can go |
| RemoteTree.ChildText | backend/sftpapi.go:140 | appending a slash and an entry's name to a spelled path appends the name as its last component |
| RemoteTree.RelativeToLogin | backend/ssh.go:695-704 | a relative path means what it means behind the login directory's own path |
| RemoteTree.RootIsEmptied | backend/sftpapi.go:109-111 | under any absolute spelling of slashes and dots that the guard lets through, a recursive request without refusals deletes everything but the root itself and fails |
| RemoteTree.OwnNameIsDeletable | backend/sftpapi.go:100-132 | for a node under its own name that condition is: a file, a link to a file, an empty directory, or any directory recursively |
| Paging.LessIsOrder | backend/fsprovider.go:79-84 | directories first, then byte order of names, is a strict total order up to equal names |
| Paging.BeforeIsSmaller | backend/fsprovider.go:83 | names are compared byte by byte, a proper prefix first |
| Paging.SortSorts | backend/fsprovider.go:79-84 | the sorted listing is an ordered permutation of the directory |
| Paging.SortedIsUnique | backend/fsprovider.go:79-84 | with one entry per name there is only one ordered permutation, so the order of reading and the instability of the sort do not matter |
| Paging.LimitIsPositive | backend/fsprovider.go:271-279 | the limit is at most 500, and at least 1 except for requested values strictly between 0 and 1, and for values of 2^63 and more where the platform converts to something not positive |
| Paging.LimitInWords | backend/fsprovider.go:271-279 | the limit is what was asked for, rounded down, but at most 500, and 100 when nothing or nothing positive was asked for |
| Paging.FsCursor | backend/fsprovider.go:281-292 | the cursor loop reads its digits with 64-bit wrap-around, and anything else as 0 |
| Paging.CursorRoundTrip | backend/fsprovider.go:281-292 | a printed cursor is read back exactly while it fits 64 bits |
| Paging.OtherCursors | backend/fsprovider.go:281-292 | a cursor without its prefix is read as well, and one with anything but digits in it starts over |
| Paging.FsList | backend/fsprovider.go:66-126 | one request returns the page of the sorted listing that limit and cursor ask for, with a next cursor exactly when entries remain |
| Paging.PageInWords | backend/fsprovider.go:88-124 | what a page holds, position by position, when it has a cursor and which, and when the request panics |
| Paging.ItemDescribes | backend/fsprovider.go:96-112 | an item carries the name, is a directory item exactly for a directory or a link to one, a symlink item exactly for any other link, and its URI is `sftp://`, the listed path, exactly one slash and the name |
| Paging.CrawlListsDirectory | backend/fsprovider.go:66-126 | following the cursors through a directory yields one such item for every entry, no entry twice, real directories first and both groups in byte order of their names |
| Paging.CallsCoverPages | backend/fsprovider.go:91-124 | the number of requests is the number of pages the entries fill, and one for an empty directory |
| Paging.ListedUriLeadsBack | backend/fsprovider.go:46-56 | the URI under which an entry is listed leads a later request back to it if and only if the name does not end in white space |
| Paging.ListedUriCanMeanAnother | backend/ssh.go:695-704 | for a name that does, the URI means the entry without it |
| Paging.HomeTargets | backend/ssh.go:695-704 | an empty path and `~` mean the remote home, `~/x` a path below it, and a URI with another scheme is an error |
| Paging.CrawlIsComplete | backend/fsprovider.go:79-125 | following the cursors from the start takes a fixed number of requests and yields the full sorted listing, each entry once, in whatever order each request reads the directory |
| Paging.CrawlIsStuck | backend/fsprovider.go:99-124 | with no room on a page a nonempty directory is never listed to its end |
| Paging.FinishesIff | backend/fsprovider.go:66-126 | the whole directory can be listed exactly when the effective limit is at least 1 or the directory is empty |

## Left out

- SSH dialing, authentication, `ssh.Session`, `sftp.Client` and the PTY libraries: only their results appear, as nondeterministic inputs.
- Docker commands and inspection parsing, completions, uploads, folder pickers, diagnostics and logging: field copying and I/O, easy members only.
- JSON encoding and request decoding: messages are opaque payloads in Framing, and an error of the underlying writer in the middle of a frame is not modelled.
- Real time: timers are steps that may happen at any moment. Nothing is proved about deadlines.
- Timed-out marker waits leave a reader goroutine behind in the source (`backend/root.go:337-349`); the model stops at the timeout. The diagnostic snapshot of the bytes read so far is not modelled.
- `clean` in the UI (CR and ANSI stripping) and UTF-8 decoding before `streamChunk`: the view's chunks are taken as they reach `streamChunk`. RemoteExec speaks about standard output alone, not about its interleaving with standard error.
- Quoting models token recognition only: an unquoted character with another meaning (expansion, globbing, comments, double quotes) stops it, so of the tail of a script after its quoted part only the text is stated, not what a shell makes of it.
- Late output that itself contains the session's tag, a random salt, is excluded in RingMeta and RemoteExec, and so is output with the tag in RemoteExec.
- RingMeta takes exit code and directory as given; what the remote shell does with the command is not modelled. `parseMetaLine`, `parseMetaFileValue` and `parseRootScriptOutput` would only repeat what is shown for the ring.
- SessionSlot: the slot's life is one session's; `startLocalExec` reads and writes the session directory without the mutex (`backend/main.go:665-671`), which the model does not capture.
- PtyEvents covers local terminals; the SSH read loop (`backend/ssh.go:307-334`) has the same end but no fallback.
- Registry counts sessions that were installed; a connect that fails before that leaves nothing in the map.
- Locks.Body: a mutex that guards only one leaf (the marker snapshot, Windows diagnostics) and `sync.Once` are left out, and so is waiting for channels, processes and the network while a lock is held.
- RemoteTree: a link is recorded with the place it finally leads to, the server resolves paths as POSIX does (a final dot or double dot cannot be removed), and nobody else changes the tree during a delete. For a path that runs through something inside the directory being deleted, how much is gone when the call fails depends on the order of the listing; only the safety half and the failure itself are stated.
- Paging.FsList: entry size and time are left out; whether a link leads to a directory is part of the entry. `sort.Slice` is represented by insertion sort, which Paging.SortedIsUnique shows to make no difference.
- The conversion of a float of 2^63 and more to an integer is platform-dependent; Paging takes its result as a parameter.
