# PatchingWrapper, modelled in Dafny

PatchingWrapper keeps a directory on a Windows client in step with a
directory on a server. The model covers its three programs:

* **PatchingServer** watches a content directory and keeps an index of its
  files. Each file is listed with its size, its MD5 digest in upper-case hex
  and the algorithm name `md5`. The server serves this index as a JSON
  manifest, together with a description of the current patcher binary.
  - Watcher notifications are queued as actions.
  - A single refresh worker replays the queue oldest first.
  - When the queue is empty, the worker caches a fresh manifest.
  - `/` serves the cached manifest and `/reload` rebuilds everything.
* **PatchingWrapper** (the client) starts the main program, fetches the
  manifest and replaces itself when the patcher binary is stale. Otherwise it
  plans which files to download and fetches each one with a resumable
  downloader.
* **PatcherUpdater** takes over while the wrapper replaces itself. It hands
  the wrapper's arguments back to the new wrapper.

Files of the model:

| file | module | contents |
|---|---|---|
| `wrappers.dfy` | `Wrappers` | `Option` and `Result` |
| `hex.dfy` | `Hex` | the digest text that `BitConverter.ToString(..).Replace("-", "")` produces, and reading it back |
| `cmd_args.dfy` | `CmdArgs` | `ToCmdArgs`, which both GUI programs share, and a reader for its lines |
| `file_tree.dfy` | `FileTree` | a directory tree, `Path.Combine` and `EnumerateFilesDeep` |
| `manifest.dfy` | `Manifest` | the manifest document's shape and member names |
| `content_index.dfy` | `ContentIndex` | the ordered `files` index, each watcher action as a step function, and the replay of the queue |
| `server.dfy` | `PatchingServer` | the server object as a class: scanning, `Init`, `Reload`, the refresh worker and the request handler |
| `sync_planner.dfy` | `SyncPlanner` | the wrapper's start-up: the `noStartup` flag, the self-update test, the updater's arguments and the download plan |
| `transfer.dfy` | `Transfer` | the downloader as a class over a directory object |
| `updater.dfy` | `PatcherUpdater` | the updater's reading of its arguments |
| `self_update.dfy` | `SelfUpdate` | how server, wrapper and updater fit together during a self-update |

Modelling choices:

* **Paths.** The separator is `/`. A path relative to the content root is a
  string.
* **MD5.** MD5 itself is a function parameter `md5` from bytes to a 16-byte
  digest.
* **JSON.** The JSON library behaves like a dictionary, on the server and in
  the wrapper alike:
  - reading a name that is absent raises;
  - a member that is present but holds null reads as null;
  - adding a name that is present raises;
  - removing a name that is absent does nothing;
  - members keep insertion order, and a name removed and added again comes
    last.
* **Faults.** An action that raises inside the refresh worker is not caught
  on the worker's thread, so it ends the server process (`Fault`/`Crashed`).
  The state the model reports is the state the process ends in. The actions
  still queued never run.
* **The cached manifest** is the document value itself. Its JSON text is not
  modelled.
* **Loops that retry for ever** run over finite supplied inputs: the server's
  scan attempts, the downloader's HTTP attempts and the in-use checks.
  Running out of input is reported, so the results are partial correctness.

Where the code and the design description differ, the model follows the
code:

* A `Created` notification for a file that has already gone raises in the
  worker, because `new FileInfo(..).Length` throws. It is not ignored.
* A manifest whose patcher hash is null makes the wrapper update itself.
* No 503 is ever sent. The listener starts only after the first build has
  cached a manifest, and nothing clears that manifest, so `/` always serves
  one. (`HandleRequest` answers 500 when handed a server without a cached
  manifest, but the program never reaches that state.)
* `/reload` does not clear the cached manifest, so the old manifest is
  served until the rebuild ends.
* The server writes the end point under `content_end_point`. The wrapper
  reads `content_endpoint`, and reading an absent name raises. So against
  every manifest this server builds, the wrapper runs the main program (when
  due) and then raises at the end-point read (`NoEndPoint`). This happens
  before the self-update test, so neither a self-update nor a download
  follows from this server's manifests. `SelfUpdate` and `Update` describe a
  manifest that does carry `content_endpoint`.
* Deleting a directory `d` removes every name that starts with the string
  `d`, including those of a sibling such as `d2/...`. Renaming one does the
  same, and rekeys such a sibling to `n/../d2/...`.

## Model

| member | source | states |
|---|---|---|
| Hex.DigestHex | PatchingWrapper/App.xaml.cs:283-290 | the digest text is the two upper-case hex digits of every byte, in order, with the dashes gone |
| Hex.PlainShape | PatchingServer/Program.cs:536-552 | the digest text has length 2n, and characters 2i and 2i+1 are the high and low digits of byte i |
| Hex.DigestHexDigits | PatchingServer/Program.cs:546 | every character of the digest text is one of `0123456789ABCDEF` |
| Hex.ParseHexRoundTrip | PatchingServer/Program.cs:110-114 | the bytes can be read back from the digest text |
| Hex.DigestHexInjective | PatchingWrapper/App.xaml.cs:283-290 | two byte strings with the same digest text are equal |
| CmdArgs.ToCmdArgs | PatchingWrapper/App.xaml.cs:292-308 | the loop builds the line `CmdLine` defines: each argument verbatim when it has no space, otherwise quoted with inner quotes doubled, joined by single spaces |
| CmdArgs.UnquoteQuote | PatcherUpdater/App.xaml.cs:37-53 | unquoting a written argument gives the argument back |
| CmdArgs.QuoteIsClosed | PatcherUpdater/App.xaml.cs:37-53 | a written argument ends outside quotes unless it is bare with an odd number of quotes |
| CmdArgs.TokensOfJoin | PatchingWrapper/App.xaml.cs:307 | joining closed parts with spaces splits back into exactly those parts |
| CmdArgs.ParseCmdLineRoundTrip | PatchingWrapper/App.xaml.cs:292-308 | a non-empty argument list whose arguments each contain a space or an even number of quotes reads back exactly from the written line |
| CmdArgs.BareQuoteSwallowsSeparator | PatchingWrapper/App.xaml.cs:298-301 | a bare argument with one quote swallows the next separator, so two arguments read back as one |
| FileTree.EnumerateFilesDeep | PatchingServer/Program.cs:515-534 | the recursive walk appends to `paths` exactly the listing of the tree: the directory's files, then each subdirectory's listing, in order, under the combined prefix |
| FileTree.ListingUnderBase | PatchingServer/Program.cs:524-530 | every path listed for a directory lies below its prefix |
| FileTree.ListingDistinct | PatchingServer/Program.cs:515-534 | in a tree whose sibling names are distinct, the listing has no repeated path |
| ContentIndex.FileHash | PatchingServer/Program.cs:536-552 | the hash is null exactly when the file cannot be read; otherwise it is 32 characters and reads back as the file's MD5 |
| ContentIndex.PutConsistent | PatchingServer/Program.cs:249-256 | setting a name keeps names distinct and the order list and the map in agreement |
| ContentIndex.DeleteConsistent | PatchingServer/Program.cs:308-311 | removing a name keeps the index consistent |
| ContentIndex.ElemsCard | PatchingServer/Program.cs:196-197 | a list without repeats has as many distinct names as entries |
| ContentIndex.ParentLength | PatchingServer/Program.cs:441 | the parent prefix ends at a separator, and no separator follows it |
| ContentIndex.RekeyDescendant | PatchingServer/Program.cs:441 | renaming `o` to `n` maps `o/r` to `n/r` |
| ContentIndex.RekeySibling | PatchingServer/Program.cs:437-442 | renaming `a` to `c` maps the sibling `ab/x`, which also starts with `a`, to `c/../ab/x` |
| ContentIndex.DeleteUnder | PatchingServer/Program.cs:398-410 | deleting under a directory never raises: a `Remove` of an absent name does nothing |
| ContentIndex.StepConsistent | PatchingServer/Program.cs:231-455 | every action, whether it finishes or raises, leaves a consistent index |
| ContentIndex.ReplayConsistent | PatchingServer/Program.cs:486-511 | replaying any queue keeps the index consistent |
| ContentIndex.ReplayAppend | PatchingServer/Program.cs:486-511 | the queue runs first in, first out: replaying `q1 + q2` is replaying `q1`, then `q2` unless `q1` crashed, in which case `q2` stays queued after the rest |
| ContentIndex.FileCreatedEffect | PatchingServer/Program.cs:231-266 | it raises exactly when the file has gone. Otherwise the name is set to the file's full entry: its size, its hash (null iff unreadable) and `md5`. A new name is appended, and other names keep their values |
| ContentIndex.FileChangedEffect | PatchingServer/Program.cs:268-299 | only a `Changed` notice for an existing file acts; it raises when the name is not indexed, and otherwise refreshes size and hash, keeps the algorithm and leaves every other name alone |
| ContentIndex.FileDeletedEffect | PatchingServer/Program.cs:301-319 | the name leaves the index, nothing else does, and the size drops by one exactly when it was there |
| ContentIndex.FileRenamedFaults | PatchingServer/Program.cs:321-343 | renaming raises exactly when the old name is absent or the new name is another indexed name; in the second case the old name is already gone |
| ContentIndex.FileRenamedMoves | PatchingServer/Program.cs:330-335 | otherwise the entry moves to the new name, which becomes the last name after the other names in their old order. Every other name keeps its value, and the size is kept |
| ContentIndex.DirNoticeEffect | PatchingServer/Program.cs:352-389 | directory creation and change notices leave the index alone |
| ContentIndex.DeleteUnderEffect | PatchingServer/Program.cs:402-408 | after visiting the snapshot, exactly the matched names have gone and the count is their number |
| ContentIndex.DirDeletedEffect | PatchingServer/Program.cs:391-419 | a name survives iff it does not start with the directory's path; survivors keep their values; the count is the number of removed names and the size drops by it |
| ContentIndex.RenameUnderEffect | PatchingServer/Program.cs:435-444 | without clashes, every matched name is moved to its new name with its value, and unmatched names keep theirs |
| ContentIndex.DirRenamedEffect | PatchingServer/Program.cs:421-455 | without clashes the rename finishes; the names are the unmatched ones plus the moved ones, values travel with their names, and the count is the number matched |
| ContentIndex.DirRenamedKeepsCount | PatchingServer/Program.cs:421-455 | a rename without clashes keeps the number of indexed files |
| ContentIndex.DirRenamedOntoIndexed | PatchingServer/Program.cs:442 | renaming `a` to `b` while `b/x` is indexed raises |
| PatchingServer.PatcherOf | PatchingServer/Program.cs:105-114 | the patcher description carries the URL, `md5`, and a hash that reads back as the MD5 of the served binary |
| PatchingServer.DocumentOfIndex | PatchingServer/Program.cs:172-184 | the manifest lists the index's names in order with their values, and carries the end point under `content_end_point` and not under `content_endpoint` |
| PatchingServer.ScanIndexCount | PatchingServer/Program.cs:155-169 | a scan of a listing without repeats gives a consistent index with one entry per path, valued from the disk |
| PatchingServer.FirstScanConsistent | PatchingServer/Program.cs:117-203 | the first scan that succeeds gives a consistent index |
| PatchingServer.Server.OnEvent | PatchingServer/Program.cs:261-265 | the action is queued last, and the worker starts iff none was running and the server is built |
| PatchingServer.Server.ScheduleRefresh | PatchingServer/Program.cs:466-484 | the worker starts exactly when none runs, the server is built and work is queued |
| PatchingServer.Server.Apply | PatchingServer/Program.cs:231-455 | running one action changes the index exactly as the action's step does, and reports whether it raised |
| PatchingServer.Server.DeleteDirectory | PatchingServer/Program.cs:398-410 | the loop over the snapshot of names does what `DeleteUnder` says |
| PatchingServer.Server.RenameDirectory | PatchingServer/Program.cs:430-446 | the loop over the snapshot of names does what `RenameUnder` says, faults included |
| PatchingServer.Server.RefreshRunnable | PatchingServer/Program.cs:486-511 | the worker ends in the state `Replay` gives. When drained, it caches the manifest of the new index, empties the queue and stops. When an action raises, the process ends in the state reached: the old manifest is still cached and the rest of the queue never runs |
| PatchingServer.Server.FullScan | PatchingServer/Program.cs:151-170 | the scan succeeds iff every listed file can still be sized; it then holds exactly the scan index of the listing, and the count is the number of files |
| PatchingServer.Server.Init | PatchingServer/Program.cs:91-205 | the server is built iff some scan attempt succeeds; it then holds the patcher description and end point, and the queue is replayed over the first successful scan. When every attempt fails, it is not built and the queue and cached manifest are as before |
| PatchingServer.Server.Publish | PatchingServer/Program.cs:186-193 | a finished build caches the manifest of the scanned index, marks the server built and replays the queue. A drained queue refreshes the manifest. A raising action ends the process with the scan's manifest cached |
| PatchingServer.Server.Reload | PatchingServer/Program.cs:207-227 | nothing happens before the first build. Otherwise the queue is dropped and the build runs again. The old manifest is kept meanwhile, and stays cached when every attempt fails |
| PatchingServer.Server.HandleRequest | PatchingServer/Program.cs:590-617 | `/` serves the cached manifest unchanged, or 500 without one. `/reload` answers 200, changes nothing before the first build and rebuilds after it, keeping the old manifest when the rebuild fails. Any other path is 404 |
| SyncPlanner.PlanDownloads | PatchingWrapper/App.xaml.cs:173-227 | the loop builds exactly the plan `Plan` defines, raising at the first member whose algorithm is not `md5` |
| SyncPlanner.MissingIsFetched | PatchingWrapper/App.xaml.cs:184-192 | a manifest file with no local copy is planned, whatever its algorithm |
| SyncPlanner.NoVerifyIsSkipped | PatchingWrapper/App.xaml.cs:194-204 | an existing `.ini` file with a manifest hash is never planned |
| SyncPlanner.UnknownAlgRaises | PatchingWrapper/App.xaml.cs:208-216 | an existing file to check with an algorithm other than `md5` raises |
| SyncPlanner.Md5CheckFetchesIffDiffers | PatchingWrapper/App.xaml.cs:204-225 | an existing file checked with `md5` is planned iff the manifest hash differs from its digest text; a null hash is always planned |
| SyncPlanner.LowerCaseHashFetches | PatchingWrapper/App.xaml.cs:218 | the comparison is case-sensitive: a manifest hash with a character outside `0-9A-F` always plans the file |
| SyncPlanner.MatchingDigestIsSkipped | PatchingWrapper/App.xaml.cs:218-225 | an existing file whose digest text equals the manifest hash is not planned |
| SyncPlanner.PlanIsSubsequence | PatchingWrapper/App.xaml.cs:176-227 | the plan keeps manifest order, takes each member at most once with its manifest size, and is never longer than the manifest |
| SyncPlanner.PlanFailsIff | PatchingWrapper/App.xaml.cs:215 | the plan raises iff some member raises |
| SyncPlanner.PlanHoldsExactlyFetched | PatchingWrapper/App.xaml.cs:176-227 | a download is planned iff its member is to be fetched |
| SyncPlanner.PlanHasNoRepeats | PatchingWrapper/App.xaml.cs:176 | a manifest without repeated names gives a plan without repeated paths |
| SyncPlanner.NoStartupSplit | PatchingWrapper/App.xaml.cs:55-60 | the flag is set iff the first argument is `noStartup`, and the arguments are the same list without it |
| SyncPlanner.StripNoStartup | PatchingWrapper/App.xaml.cs:55-60 | the in-place removal gives the split `NoStartupSplit` defines |
| SyncPlanner.BuildUpdaterArgs | PatchingWrapper/App.xaml.cs:136-143 | the list built step by step is `UpdaterArgs` |
| SyncPlanner.OnStartup | PatchingWrapper/App.xaml.cs:38-274 | the main program runs first iff not suppressed and present. Without a manifest the wrapper stops, reporting an error only when the main program is missing. A manifest without `content_endpoint` raises at that read, before the self-update test. Otherwise a stale patcher hands over to the updater, with the flag set when it was given or the main program ran. Otherwise the plan decides: it raises, ends up to date, or downloads from the manifest's end point |
| SyncPlanner.JoinedArgsAreOneArgument | PatchingWrapper/App.xaml.cs:68 | arguments without spaces, joined without separators, read back as one argument |
| SyncPlanner.JoinedArgsMergeTwo | PatchingWrapper/App.xaml.cs:269 | `-a` and `-b` reach the main program as the single argument `-a-b` |
| SyncPlanner.MainCommandLine | PatchingWrapper/App.xaml.cs:68 | the corrected command line reads back as the argument list |
| SelfUpdate.SelfUpdateIffDigestsDiffer | PatchingWrapper/App.xaml.cs:115-120 | against the patcher description the server builds, the wrapper updates itself iff the served binary's MD5 differs from its own |
| SelfUpdate.ArgumentsSurviveSelfUpdate | PatchingWrapper/App.xaml.cs:136-144 | the updater reads back the line `ToCmdArgs` writes from the updater's list. It gets the path and URL still wrapped in the quotes the wrapper added. The new wrapper strips the same flag and keeps the same remaining arguments |
| SelfUpdate.SpacedPathArrivesQuoted | PatchingWrapper/App.xaml.cs:137 | a wrapper whose path holds a space, such as `P F/w.exe`, hands the updater that path wrapped in quote characters, which is not its path |
| SelfUpdate.CorrectedArgumentsSurviveSelfUpdate | PatchingWrapper/App.xaml.cs:136-144 | with the path and URL passed unwrapped, the updater receives exactly the wrapper's path and the URL, and the new wrapper the same flag and remaining arguments |
| PatcherUpdater.ParseStartup | PatcherUpdater/App.xaml.cs:55-74 | the list handling gives `StartupOf`: failure with fewer than two arguments, otherwise path, URL and the written rest |
| PatcherUpdater.StartupShape | PatcherUpdater/App.xaml.cs:59-70 | the updater starts iff it has two arguments; it keeps them as they are and hands something back iff there was more |
| PatcherUpdater.StartupHandsBackRest | PatcherUpdater/App.xaml.cs:66-70 | what is handed back reads as the arguments after the first two |
| Transfer.Downloader.constructor | PatchingWrapper/Downloader.cs:32-48 | a new downloader is at position 0 with length unknown, and any old temporary file is deleted |
| Transfer.Downloader.AbortDownload | PatchingWrapper/Downloader.cs:57-64 | the output is closed and the running flag cleared; a transfer loop already under way is not stopped |
| Transfer.Downloader.CancelDownload | PatchingWrapper/Downloader.cs:50-55 | as abort, and the temporary file is deleted, nothing else |
| Transfer.RangeResumes | PatchingWrapper/Downloader.cs:124-147 | the range makes resuming sound. Suppose the temporary file holds the start of the body, and a length is known whenever it holds anything. Then the ranged request is answered from the file's size, and the file plus any part of that answer is a longer start of the body |
| Transfer.Downloader.OpenOutput | PatchingWrapper/Downloader.cs:116-117 | the temporary file is opened for appending and created empty when absent; nothing else on disk changes, and the position is its size |
| Transfer.FullReadsDeliverAll | PatchingWrapper/Downloader.cs:139-148 | reads that each fill the 1024-byte buffer deliver the whole content once there are enough of them |
| Transfer.Downloader.Write | PatchingWrapper/Downloader.cs:143-147 | one read is appended to the temporary file, the position grows by its size, and one downloading notice of that size is reported |
| Transfer.Downloader.CopyResponse | PatchingWrapper/Downloader.cs:137-149 | the number of bytes copied is `Delivered` of the reads: each read capped by the buffer and by what remains, until a read returns nothing or the content is complete. The temporary file grows by exactly those bytes of the content, the position and the reported steps grow by the same number, and every notice is a positive downloading step |
| Transfer.Downloader.Request | PatchingWrapper/Downloader.cs:121-154 | one request. It returns its range, `RangeFrom(position, length)`: from the position iff a positive length is known. A refused request, or one ranged past the end, changes nothing. Otherwise the temporary file grows by what the server sends from the range's offset, exactly as many bytes as the reads deliver, and nothing else on disk changes. A response sets an unknown length to the body's size and leaves a known one alone, and a temporary file holding the start of the body still does |
| Transfer.RespondedMeans | PatchingWrapper/Downloader.cs:131-136 | the recursive test that some attempt got a response holds iff one of the attempts so far was answered |
| Transfer.Downloader.Pass | PatchingWrapper/Downloader.cs:119-155 | one pass of the retry loop appends the range it requested and keeps the transfer invariant: the temporary file is the only change and its size is the position, the steps only grow, the ranges so far follow the position, and the length is the body's size once a response came |
| Transfer.Downloader.Fetch | PatchingWrapper/Downloader.cs:114-157 | only the temporary file changes, and its size is the position. The length is either unchanged or, when it was unknown, the body's size, and it is the body's size once some attempt used got a response. On completion the position equals the length. From no temporary file, it holds a prefix of the body, the whole body on completion, and the steps add up to its size. It returns one range per attempt used. The first range comes from the opening size of the temporary file and the initial length. Once a request is ranged, every later one is too, from a position that never decreases and never passes the current one |
| Transfer.Downloader.WaitUntilFree | PatchingWrapper/Downloader.cs:98-101 | it goes on iff the target is absent or some check finds it free |
| Transfer.Downloader.Replace | PatchingWrapper/Downloader.cs:105-107 | the target is replaced by the temporary file, which disappears |
| Transfer.Downloader.Announce | PatchingWrapper/Downloader.cs:96-97 | the status is set and one notice of that status with no bytes is reported |
| Transfer.Downloader.Finish | PatchingWrapper/Downloader.cs:96-111 | if the target never becomes free nothing on disk changes; otherwise the temporary file replaces the target, Waiting, Finishing and Finished are announced, and the downloader stops |
| Transfer.Downloader.Download | PatchingWrapper/Downloader.cs:86-112 | stages are announced Initializing, Downloading, then Waiting, Finishing, Finished. From no temporary file, a completed download sets the target to the body and changes nothing else. An unfinished one never touches the target |

## Left out

- Threads, locks, the debounce of notifications, the `Interlocked` flag and the file system watchers are left out. Notifications are actions appended to the queue, and the worker is one sequential run.
- Events that arrive while `Init` is scanning, and the race of `Dequeue` on an empty queue, are not modelled.
- Reading the configuration file, HTTP listening, logging and the JSON parser and serialiser are external. The manifest is a value and `ToString` is not modelled.
- MD5 itself is a parameter. Reading file bytes is a map lookup, with an unreadable file standing for an `IOException`.
- The wrapper's deletion of an old updater binary, which polls `IsFileInUse`, is left out. So are releasing the updater from resources, `Process.Start`, elevation with `runas`, `IsAdmin`, the `UnauthorizedAccessException` paths, the access check with a temporary file, and message boxes.
- The window that runs ten downloaders over the plan, and the progress display, are not part of this model. Neither is the updater's window, which downloads and starts the new binary.
- Directory creation in the downloader's constructor is left out, because the directory is a flat map.
- The downloader's `IsFileInUse` is a supplied sequence of answers.
- CmdArgs.ParseCmdLine: the reader ignores the Windows C runtime's backslash rules, and it removes quotes only from arguments that contain a space.
- CmdArgs.ParseCmdLineRoundTrip: the model's reader splits at every space, so it keeps empty arguments: `ToCmdArgs` writes an empty argument as nothing, and the reader reads it back as an empty argument. The Windows reader skips runs of spaces, so in the program an empty argument is lost on the way. The round trip, `PatcherUpdater.StartupHandsBackRest`, `SyncPlanner.MainCommandLine` and both hand-over lemmas promise its survival only for the model's reader.
- SelfUpdate.ArgumentsSurviveSelfUpdate: for a path or URL without a space, the Windows reader removes the quotes the wrapper added, so the updater gets it unwrapped. The model's reader keeps them, as stated under `CmdArgs.ParseCmdLine`.
- Transfer.Downloader.Fetch: a read that returns nothing before the announced length is treated as a lost connection. In the source that inner loop would spin. The server is taken to honour ranges and to serve a fixed body.
- Transfer.Downloader.Download: the result is stated only when the temporary file was absent at the start. The constructor guarantees that.
- PatchingServer.Server.FullScan: the tree of an attempt is a fixed snapshot, so a subdirectory that vanishes between being listed and being walked is not expressible. In the program `EnumerateFiles` then raises `DirectoryNotFoundException`, which the retry does not catch, so it escapes `Init`. The only scan failure modelled is a listed file that can no longer be sized.
- PatchingServer.Server.Init: a scan that fails is an attempt in the supplied list. The source retries for ever, so running out of attempts leaves the server not built.
- SyncPlanner.NoVerify: the regular expression is read as "at least one character, then `.ini` at the end". Newlines in paths are not considered.
- ContentIndex.Put: appending a re-added name and `ContentIndex.Delete` forgetting a removed one rely on the JSON library keeping insertion order. That library is not part of this model.
- SyncPlanner.Decide: the wrapper's own file hashing has no `catch`, so a locked local file raises `IOException` there. The model's local files can always be read.
- Transfer.Downloader.AbortDownload: nothing in the downloader ever sets the running flag, so a caller that cancels only a running download never cancels, and its temporary file stays behind. The updater window that does so is not part of this model.
- Transfer.Downloader.Request: the HTTP status is never checked, so an error page would be written into the file. The model's server always answers with the body.
- FileTree.StartsWith: `string.StartsWith(string)` compares by the current culture. The model compares characters one by one, which is what an ordinal comparison does.
- PatchingServer.Server.HandleRequest: a rebuild's worker that crashes ends the process. The reply the model gives in that case is never sent.

## Findings

| source | as written | input that shows it | evidently intended | confidence | as-written member | corrected member |
|---|---|---|---|---|---|---|
| PatchingWrapper/App.xaml.cs:68 | the main program is started with its arguments joined by `string.Join("", ...)`, with no separator and no quoting | arguments `-a -b` | the arguments written as `ToCmdArgs` writes them, as the updater and the restart do | high, not executed | SyncPlanner.JoinedArgsMergeTwo | SyncPlanner.MainCommandLine |
| PatchingWrapper/App.xaml.cs:137-144 | the updater's path and URL are wrapped in literal quotes before `ToCmdArgs` writes the list. An argument with a space is quoted again with its quotes doubled, so the updater reads the quotes as part of the path | a wrapper installed at `P F/w.exe` | the path and URL passed as they are, and left to `ToCmdArgs` to quote | medium, not executed | SelfUpdate.SpacedPathArrivesQuoted | SelfUpdate.CorrectedArgumentsSurviveSelfUpdate |
