# Verification model of the sandbox server

A Dafny model of four parts of the server, with proofs about every input, every
tree and every run:

- **Paths** (`src/root.rs`, and the tools of `src/fs_ops.rs` that use it): the
  two-stage check that keeps each tool under the root, over a file system with
  relative, absolute, dangling and cyclic symbolic links and a kernel walk with
  a hop budget, in the style of XBD section 4.13 of POSIX.1-2017. `lstat`,
  `realpath`, `mkdir` and opening a file for writing are all defined from that
  one walk; none of them assumes that a path is free of links.
- **Jobs** (`src/exec_ops.rs`): a job's shared state and the job table, first as
  classes whose methods are the bodies of critical sections, then as a protocol
  in which two pumps, an exit waiter and any number of callers interleave one
  critical section at a time.
- **The store and the authorization-code flow** (`src/store.rs`,
  `src/oauth.rs`): the tables with a ghost log of every call, whose answers are
  characterised by that history; the handlers alone, and the handlers
  interleaving with each other and with crashes. Time is in nanoseconds and may
  go backwards unless a theorem says otherwise.
- **Text** (`src/fs_ops.rs`, `escape` of `src/oauth.rs`): counting and replacing
  matches, paging and rendering lines, cutting at UTF-8 boundaries, the search
  loop, and HTML escaping.

`dafny verify dfyconfig.toml` checks the project. A step of a protocol whose
moment has not come does nothing, so a list of steps is any interleaving, and a
theorem about `Run(cfg, EMPTY, actions)` or `Run(cfg, START, actions)` is about
every reachable state.

## Where the code and its comments differ

- `src/exec_ops.rs:35` says that a waiter arriving late still sees the completion
  signal. `send` stores nothing when nobody is subscribed, and line 138 drops the
  only receiver. The claim holds exactly when some `wait` was subscribed when the
  signal was sent: `HeardIsNeverMissed` and `UnheardStaysUnheard` are the two
  directions, `LateWaiterCanMiss` is a run in which it fails. With a sender that
  always stores (`Config.always`) it holds on every run. A stored signal can still be
  missed by a `wait` that looked just before it was sent and whose timer runs out in
  the same poll; `ListenerGetsAnswer` shows that this is the only way.
- `src/fs_ops.rs:128` says that ambiguous edits are refused. Matches are counted
  without overlap, so an old text that overlaps itself can occur twice and count
  once. `AcceptedIsUniqueIff` shows the promise to hold exactly for old texts with
  no proper border; `AmbiguousEditAccepted` is the smallest exception.
- `src/store.rs:231` says that a clock too far behind should expire nothing. The
  fallback cutoff is zero, and so is every time cut from before the first second
  after the epoch: `SweepBeforeEpoch` gives the exact set of rows that stay, and
  `SweepBeforeEpochCanDrop` a row that goes.
- `src/fs_ops.rs:60` cuts at a byte. When that byte falls inside a character
  `String::truncate` panics: `TruncatedExact` says exactly when, and
  `ReadingCanPanicIff` that some limit makes `read_file` panic on a file exactly when
  it is not taken for binary and has a character beyond ASCII.

## Model

| member | source | states |
|---|---|---|
| Paths.ComponentsOfRendered | src/root.rs:57-69 | the text of a normalised absolute path parses back to exactly its names |
| Paths.ComponentsOfJoin | src/root.rs:49-55 | joining text to the root is appending components; absolute input stands on its own |
| Paths.ComponentsConcat | src/root.rs:57-69 | text after a slash adds its own components to those before it |
| FileSystem.WalkConcat | src/root.rs:85-102 | the kernel walk of two stretches is the walk of the first, following links, then of the second with the hops left |
| FileSystem.FollowEndsCanonical | src/root.rs:99-102 | `realpath` ends at a node that is not a link and never gains hops |
| FileSystem.WalkExtends | src/fs_ops.rs:104-115 | adding nodes and changing contents moves no path that could already be reached |
| FileSystem.LinkStandsFor | src/root.rs:85-102 | a link stands for what its target names, from "/" or from its own directory, at one hop; `lstat` sees the link itself |
| FileSystem.SelfLinkRefused | src/root.rs:85-88 | a link to itself is refused for every hop budget |
| Root.NewRootNames | src/root.rs:33-40 | a canonical path given in full becomes the root wherever the server starts, and one given from the working directory becomes the place below it |
| Root.NewRootFollows | src/root.rs:33-40 | for any argument the root is where the kernel ends for it, read from "/" or appended to the working directory; refused, with the kernel's error, exactly when that cannot be followed |
| Root.NewRoot | src/root.rs:33-40 | the stored root is in canonical form |
| Root.Lexical | src/root.rs:49-77 | the loop over the buffer computes the recursive normaliser, with the same errors |
| Root.NormaliseOkIff | src/root.rs:57-70 | normalising fails exactly when some prefix of the input climbs above "/"; otherwise the result is as deep as names entered less `..` taken |
| Root.NormaliseSurvivors | src/root.rs:57-70 | the j-th name of the result is an input name entered at height j that no later `..` takes back, told without a stack |
| Root.LexicalOkIff | src/root.rs:49-77 | accepted exactly when no prefix climbs above "/" and the end lies at or below the root (leaving and coming back is allowed); the result has only proper names |
| Root.NextPiece | src/root.rs:57-69 | on the text: a further `..` goes up one and fails at "/", `.` and an empty piece go nowhere, a name goes down to it |
| Root.FirstPieces | src/root.rs:49-69 | a first piece is read from the root, and "/" from the top |
| Root.LexicalIdempotent | src/root.rs:49-77 | the result, given back as absolute text, is accepted unchanged |
| Root.LexicalOfRelative | src/root.rs:49-77 | the result, given back relative to the root, comes out the same |
| Root.NormaliseDenotes | src/root.rs:46-70 | textual `..` denotes what the kernel's `..` denotes, hops included, whenever every component a `..` removes is a real directory |
| Root.PopIsParent | src/root.rs:63-67 | entering a real directory and leaving it again changes no walk |
| Root.Resolve | src/root.rs:82-111 | the two loops compute the recursive specification, names re-appended in order; the upward loop terminates |
| Confinement.FollowImpliesVisible | src/root.rs:85-91 | `lstat` sees whatever `realpath` reaches, and they agree unless a link is there |
| Confinement.DeepestVisibleExact | src/root.rs:89-97 | the upward walk always ends, exactly where `lstat` stops seeing prefixes |
| Confinement.VisibleUpToUnique | src/root.rs:89-97 | there is only one such place |
| Confinement.NextNameAbsent | src/root.rs:85-88 | below an ancestor that can be followed, the next name does not exist under the canonical ancestor |
| Confinement.ResolveExact | src/root.rs:82-111 | Ok exactly when the deepest visible ancestor can be followed to a place under the root, and then that place followed by the missing names; an I/O error exactly when it cannot be followed, in which case it is a link |
| Confinement.ResolveConfined | src/root.rs:79-111 | the result is under the root, no prefix of it is a link, its existing part is canonical and its first missing name is absent |
| Confinement.LinkFreeWalk | src/root.rs:3-6 | following such a result spends no hops and ends, or creates, at that very place |
| Confinement.ResolveAgreesWithKernel | src/root.rs:82-111 | if the lexical path exists the result is its canonical form or an escape; if it does not, an accepted result names nothing |
| Confinement.ResolveFollowsRawPath | src/root.rs:46-111 | when no `..` follows a link, `resolve` answers with the node the kernel finds for the raw text |
| Confinement.PopOfLinkDiverges | src/root.rs:46-48 | a tree and an input for which a `..` after a link makes them differ |
| FsOps.Disk.Mkdir | src/fs_ops.rs:107-111 | one `mkdir` against its specification, links above followed, and no change on error |
| FsOps.Disk.CreateDirAll | src/fs_ops.rs:107-111 | the recursive creation of parents against its specification |
| FsOps.Disk.Write | src/fs_ops.rs:112-114 | opening for creation, truncating and writing, a link in last place followed |
| FsOps.WriteFile | src/fs_ops.rs:104-116 | `write_file` leaves the disk and answers as its specification says, errors included |
| FsOps.AddDirsFacts | src/fs_ops.rs:107-111 | the tree with the missing parents added is well formed and otherwise unchanged |
| FsOps.CreateDirAllExact | src/fs_ops.rs:107-111 | on a link-free path it makes exactly the missing directories, or changes nothing when a file is in the way |
| WriteConfinement.WriteFileExact | src/fs_ops.rs:104-116 | it succeeds exactly onto an existing file or below an existing directory, and then adds the missing parents and the file and nothing else; on error nothing changes |
| WriteConfinement.WriteFileAnswer | src/fs_ops.rs:104-116 | on success the length of the content in bytes and the path shown; otherwise whether a directory, or a file among the parents, is in the way |
| WriteConfinement.WriteFileConfined | src/fs_ops.rs:104-116 | for every tree and input, each place outside the root is as before, links stay what they were, and the tree stays well formed, also when the root's own parent is outside |
| WriteConfinement.WriteThenRead | src/fs_ops.rs:72-76 | after a successful write the same input resolves to the same place and reads back the content |
| WriteConfinement.ShownRoundTrip | src/fs_ops.rs:12-21 | resolving what `shown` prints gives back the path it was printed for, `.` included |
| WriteConfinement.ShownIsRelative | src/fs_ops.rs:12-21 | what `shown` prints is the names below the root, without a leading slash, and `.` for the root |
| EditText.NoMatchIff | src/fs_ops.rs:129-130 | the count is zero exactly when the text occurs nowhere, and replacing then changes nothing |
| EditText.EditExact | src/fs_ops.rs:128-135 | accepted exactly when every occurrence overlaps the leftmost, and then that one is replaced and nothing else; refused as absent exactly when there is none |
| EditText.AcceptedIsUniqueIff | src/fs_ops.rs:128-133 | accepted edits are unambiguous, for every file, exactly for old texts without a proper border |
| EditText.AmbiguousEditAccepted | src/fs_ops.rs:128-133 | a concrete accepted edit whose old text occurs twice |
| EditText.CountIsExact | src/fs_ops.rs:129 | for a text without a border the matches counted are all the places where it occurs, in order |
| EditText.EditRoundTrip | src/fs_ops.rs:118-140 | the opposite edit restores the text when the new text occurs at one place |
| EditFile.EditFileAt | src/fs_ops.rs:118-140 | `edit_file` leaves the disk and answers as its specification says, each refusal in its order |
| EditFile.EditFileExact | src/fs_ops.rs:118-140 | accepted exactly for a file under the root with a sole match, and then that file is spliced at one place and the rest of the tree is untouched; refused edits change nothing |
| EditFile.EditFileRefusals | src/fs_ops.rs:118-140 | each refusal has one cause, in order; writing the edited text never fails |
| EditFile.EditIsWrite | src/fs_ops.rs:135-139 | an accepted edit is `write_file` of the spliced text to the same path |
| EditFile.EditFileRoundTrip | src/fs_ops.rs:118-140 | the opposite call on the same path puts the whole tree back |
| Utf8.BoundaryIff | src/fs_ops.rs:58-61 | a byte position passes the one-byte boundary test exactly when whole characters fill it, and those are the first bytes |
| Utf8.BoundaryMeansPrefix | src/fs_ops.rs:58-61 | the boundary test holds exactly when some prefix of the characters has that encoded length |
| Utf8.DecodesEncoded | src/fs_ops.rs:58-61 | the encoding whose bytes are counted is read back by leading bytes, in the shortest form (section 3 of RFC 3629) |
| ReadText.LinesOfUnlines | src/fs_ops.rs:83 | splitting undoes joining, for a last line with or without its newline, up to a carriage return before a newline |
| ReadText.ParsedOfRendered | src/fs_ops.rs:97-100 | splitting the output at newlines and first tabs recovers every number and line |
| ReadText.RowLayout | src/fs_ops.rs:99 | a row is the number without leading zeros, right-aligned in six columns, a tab and the line |
| ReadText.RenderRows | src/fs_ops.rs:97-100 | the output loop renders the window |
| ReadText.ReadWindow | src/fs_ops.rs:83-101 | for every offset and limit the slice bounds are valid, and the answer is the window or the past-the-end error |
| ReadText.PagesAreTheWhole | src/fs_ops.rs:84-100 | windows of any positive size, one after the other, concatenate to the unlimited read |
| ReadText.WindowReadsBack | src/fs_ops.rs:83-101 | an error exactly for an offset past the end of a non-empty file; otherwise as many rows as the limit and the file allow, row i being line offset + i under its own number |
| ReadText.TruncatedExact | src/fs_ops.rs:58-64 | panics exactly when cutting is needed at a place no prefix of characters reaches; otherwise the text itself, or its first `max` bytes and a marker of sixteen |
| ReadText.CutInside | src/fs_ops.rs:58-64 | any limit inside a character panics |
| ReadText.CanPanicIff | src/fs_ops.rs:58-64 | some limit makes the cut panic exactly for text with a character beyond ASCII |
| ReadFile.Read | src/fs_ops.rs:66-102 | `read_file` answers as its specification says, checks in order |
| ReadFile.WrittenIsShown | src/fs_ops.rs:66-116 | NUL-free text that `write_file` accepted is what `read_file` of the same path shows, line for line, when it fits |
| ReadFile.ReadableIff | src/fs_ops.rs:73-77 | the answer is a path or read error exactly when the input names no file under the root |
| ReadFile.RefusedRead | src/fs_ops.rs:73-77 | the read error says whether the resolved path is a directory, is missing, or has a file in the way |
| ReadFile.ReadFileExact | src/fs_ops.rs:66-102 | for the one file under the root: binary exactly by a NUL in the first 8192 bytes, past the end exactly beyond the lines, a panic exactly when the limit cuts a character, and otherwise its window, whole and readable back or cut and marked |
| ReadFile.WindowCanPanicIff | src/fs_ops.rs:58-102 | some limit makes reading a window panic exactly when it is offered and one of its lines has a character beyond ASCII |
| ReadFile.ReadingCanPanicIff | src/fs_ops.rs:58-102 | some limit makes reading a whole file panic exactly when it is not binary and has a character beyond ASCII |
| ReadFile.AnswerIsBounded | src/fs_ops.rs:58-102 | no answer exceeds the limit by more than sixteen bytes |
| Search.Scan | src/fs_ops.rs:195-226 | the loops over files and lines take the hits in order and stop at the limit |
| Search.Search | src/fs_ops.rs:183-228 | over the files as they are: the rows of all matching lines in order, with trailing white space off; or the first `max(1, limit)` of them and a note once there are that many; or `(no matches)` when there are none; binary files have none |
| Search.HitsExact | src/fs_ops.rs:209-212 | the hits are exactly the matching lines, each once, in the order of the walk and of the lines |
| Search.HitsListed | src/fs_ops.rs:204-212 | the lines searched are those of the files without a NUL in the first 8192 bytes, each matching one once and in order |
| JobTable.Pump | src/exec_ops.rs:57-72 | unless a read fails the pipe is read to its end, full buffer or not, and the output is the first `max_output` bytes of what was read |
| JobTable.AppendedIsCapped | src/exec_ops.rs:66-70 | appending under the cap is capping the whole, however the stream is cut into chunks |
| JobTable.JobCell.Append | src/exec_ops.rs:63-70 | one critical section of a pump |
| JobTable.Jobs.Reap | src/exec_ops.rs:82-94 | exactly the entries unfinished or finished less than `retention` ago remain |
| JobTable.Jobs.Get | src/exec_ops.rs:96-109 | the entry, or the error for an unknown id |
| JobTable.Jobs.Start | src/exec_ops.rs:123-177 | the table after a start is the swept table and a new running job with the command and pid given; nothing is inserted when the spawn fails |
| JobTable.Jobs.Wait | src/exec_ops.rs:181-198 | alone: the result exactly of a known job whose signal is stored, nothing of any other, and no receiver left behind |
| JobTable.Jobs.Poll | src/exec_ops.rs:200-203 | command, status and output of a known job |
| JobTable.Jobs.Stop | src/exec_ops.rs:205-218 | signals exactly a known running job that has a pid, and errs as finished exactly for a known terminal one |
| JobTasks.ExitWaiter | src/exec_ops.rs:157-170 | the exit task leaves the shared state as the protocol's three waiter steps do: the exit code exactly if there was one, the finish time, and the signal if anyone is subscribed |
| JobProtocol.JobStepKeepsInv | src/exec_ops.rs:57-170 | every step of a job's tasks keeps the life cycle, both streams intact and the output capped |
| JobProtocol.JobStepEvolves | src/exec_ops.rs:57-170 | steps only extend output and log; exit, terminal status, finish time and signal never change once set |
| JobRuns.StepKeeps | src/exec_ops.rs:82-213 | every step of every task and caller keeps the whole invariant and only adds to the history |
| JobRuns.RunKeeps | src/exec_ops.rs:82-213 | so does every run |
| JobOutput.OutputOfRun | src/exec_ops.rs:57-72 | after any run the output is the first `max_output` bytes of the chunks in lock order, a shuffle of a prefix of stdout and a prefix of stderr; a stream read to its end is logged whole |
| JobOutput.StreamReadToItsEnd | src/exec_ops.rs:59-68 | from every reachable world, however full the buffer, a pump that met no failed read can reach the end of its stream by its own steps, with all of it logged |
| JobOutput.OnlyFailedReadsStop | src/exec_ops.rs:59-68 | on every run only a failed read stops a pump before the end of its stream |
| JobTheorems.Retention | src/exec_ops.rs:82-94 | an id that `start` returned resolves, to its own job, unless a sweep dropped it at least `retention` after the job's finish time |
| JobTheorems.LostOnlyBySweep | src/exec_ops.rs:82-109 | only such a sweep check ever makes a known id unknown |
| JobTheorems.SweepIsThorough | src/exec_ops.rs:82-94 | after a sweep no job is left that had been finished for `retention` when it began |
| JobSignal.SignalStoredIff | src/exec_ops.rs:169 | the signal is stored exactly if some `wait` is listening at that step |
| JobSignal.ListenerGetsAnswer | src/exec_ops.rs:181-198 | a `wait` holding a receiver at the signal makes it stored and is answered empty exactly if it was in the middle of a poll and its timer ran out in it; a parked one never is; answers carry the true exit |
| JobSignal.HeardWaitFinishes | src/exec_ops.rs:186-197 | a `wait` listening to a stored signal gets the status and output by its own next steps |
| JobTheorems.AnswersAreTrue | src/exec_ops.rs:111-119 | an end reported by any `wait` or `poll` is `Exited(c)` exactly if the process ended with code c and `Signalled` exactly if it ended without one; the output is output the job has |
| JobTheorems.LifeOfJob | src/exec_ops.rs:155-170 | in every reachable world done follows a finish time and a finish time a terminal status; the status leaves running once and none of it is ever undone |
| JobTheorems.SnapshotIsCurrent | src/exec_ops.rs:111-119 | an answer of `wait` or `poll` has all the output the job had before the call copied it, none it does not have now, and its end if it had ended |
| JobTheorems.StopExact | src/exec_ops.rs:205-218 | a `stop` signals its job exactly if no end is recorded and there is a pid |
| JobTheorems.StartedJob | src/exec_ops.rs:123-153 | a job has, at once and for good, the command, cap, pid and streams `start` was given |
| JobTheorems.InsertedId | src/exec_ops.rs:155-176 | the id handed out is that of the job, for good |
| JobTheorems.LookupExact | src/exec_ops.rs:96-109 | looking an id up finds its job exactly while it is in the table |
| JobTheorems.AnswersAreAboutTheId | src/exec_ops.rs:181-208 | a call that asks for an id is only ever answered about the job of that id |
| JobSignal.UnheardStaysUnheard | src/exec_ops.rs:35-36 | after a signal nobody heard, no `wait` ever answers with the result although the status is terminal |
| JobSignal.HeardIsNeverMissed | src/exec_ops.rs:35-36 | after a signal somebody heard (or a sender that always stores), no `wait` is answered empty, however late it starts or subscribes, save exactly one that gives up in the poll it was in the middle of |
| JobSignal.LateWaiterCanMiss | src/exec_ops.rs:35-36 | a run in which a late `wait` comes back empty from an ended job |
| JobTheorems.SnapshotsOnlyGrow | src/exec_ops.rs:111-119 | of any two answers from `wait` or `poll` the one copied later extends the output of the earlier and keeps a terminal status |
| JobTheorems.StopAfterTheEnd | src/exec_ops.rs:205-213 | once the status is terminal no later `stop` signals |
| StoreLog.TokenRowIff | src/store.rs:157-183 | for any clock, a token row exists exactly while every check since its insertion saw a whole second below its expiry |
| StoreLog.MonotoneTokenCheck | src/store.rs:165-183 | with a clock that never goes back, a check answers as if no row were ever deleted: stored and not expired now |
| StoreLog.EpochFloors | src/store.rs:31-44 | rows hold whole seconds, cut down, and zero before the epoch; they read back as that second |
| StoreLog.TokenLifetime | src/oauth.rs:33-34 | with such a clock a token stored once is good for at most its lifetime and for more than its lifetime less a second |
| StoreLog.CodeRowIff | src/store.rs:119-155 | a code row exists exactly for a code stored, not taken and not swept since, and holds what was stored |
| StoreLog.CodeLifetime | src/oauth.rs:33 | with such a clock an untaken code is accepted as unexpired up to its lifetime less a second after the consent and never after its lifetime |
| StoreLog.SweepOfCodesIsTransparent | src/store.rs:168-171 | the side sweep changes the outcome of an exchange only when both fall on the exact instant of expiry |
| StoreLog.SessionRowIff | src/store.rs:185-242 | a session row exists exactly if the last save is after the last delete and the last touch survived every sweep since |
| StoreLog.SweepWindow | src/store.rs:226-242 | what a sweep spares was touched less than `retention` before, what it drops more than `retention` less a second before |
| StoreLog.SweepBeforeEpoch | src/store.rs:231-235 | a cutoff before the epoch keeps exactly the rows touched at or after the first second |
| StoreLog.SweepBeforeEpochCanDrop | src/store.rs:231-235 | a row that such a sweep drops |
| StoreLog.ClientRowIff | src/store.rs:93-117 | a client row exists exactly if that URI was registered for that client |
| Store.Store.RegisterClient | src/store.rs:93-104 | the insertion loop adds exactly one row per distinct URI |
| Store.Store.RedirectUris | src/store.rs:106-117 | exactly the URIs ever registered, or `None` for a client never registered |
| Store.Store.StoreCode | src/store.rs:119-132 | inserts the row unless the code has one |
| Store.Store.TakeCode | src/store.rs:134-155 | what a live code was stored with, its expiry cut to a second, or nothing if none is live by its history; gone afterwards in any case |
| Store.Store.StoreToken | src/store.rs:157-163 | inserts the row unless the token has one |
| Store.Store.TokenIsValid | src/store.rs:165-183 | sweeps both tables and answers true exactly if the token is live by its history |
| Store.Store.SaveSession | src/store.rs:185-200 | inserts or replaces the row |
| Store.Store.LoadSession | src/store.rs:202-216 | the parameters if the session is live by its history; touches the row |
| Store.Store.DeleteSession | src/store.rs:218-224 | removes the row |
| Store.Store.SweepSessions | src/store.rs:226-242 | removes the rows at or before the cutoff and counts them |
| OAuth.Server.Register | src/oauth.rs:96-135 | refuses an empty list, else records the client |
| OAuth.Server.ValidateClient | src/oauth.rs:335-360 | accepts exactly a URI registered for the client; unknown client exactly if it has none |
| OAuth.Server.AuthorizeForm | src/oauth.rs:154-168 | shows the page exactly for a registered pair with a non-empty S256 challenge |
| OAuth.SecretIff | src/oauth.rs:65-69 | a form is accepted exactly if its token is the secret within nothing but white space, and the secret has none at its ends |
| OAuth.Server.AuthorizeSubmit | src/oauth.rs:183-241 | records a code, good for ten minutes, exactly for a registered pair and a token that is the secret within white space; each error has one cause; the location carries the code and the state |
| OAuth.Server.Token | src/oauth.rs:256-324 | from the history: unknown exactly if no code is live; then expired, wrong URI, wrong verifier, each with one cause; a token, good for thirty days, exactly otherwise; so for certain up to ten minutes less a second after an untaken consent and never after ten; the code is gone in every case |
| OAuth.RefusalExact | src/oauth.rs:260-311 | the checks alone, from the history |
| OAuth.ExchangeInTime | src/oauth.rs:33-311 | up to ten minutes less a second after an untaken consent the request alone decides, whatever was swept; after ten minutes the exchange is refused |
| AuthFlow.StepKeeps | src/oauth.rs:183-324 | every step of interleaved handlers, and every crash, keeps the invariant |
| AuthFlow.RunKeeps | src/oauth.rs:183-324 | so does every run |
| AuthFlow.TokenAlone | src/oauth.rs:256-324 | the steps of one `token` handler run without interruption do what the handler alone does |
| AuthFlow.GoodExchangeIssues | src/oauth.rs:256-324 | an exchange in time with the consent's URI and a verifier for its challenge issues a token |
| AuthFlow.SubmitAlone | src/oauth.rs:183-241 | likewise for `authorize_submit`: a code is recorded exactly for a registered pair and the secret within white space |
| AuthFlow.OneTokenPerConsent | src/oauth.rs:265-324 | issued tokens map one to one to consents (section 4.1.2 of RFC 6749), so no two tokens share a code that was recorded once |
| AuthFlow.TokenProvenance | src/oauth.rs:183-324 | every token row comes from a consent whose token was the secret within white space, for a pair registered before its check and recorded after it, redeemed within ten minutes with the same URI and a matching verifier (section 4.6 of RFC 7636), and lasts thirty days |
| AuthFlow.UnusableChallengeNeverRedeemed | src/oauth.rs:303-311 | a redeemed challenge has the length of an encoded digest, so an empty one is never redeemed |
| AuthFlow.EmptyChallengeCanBeRecorded | src/oauth.rs:160-218 | `authorize_submit` can record an empty challenge |
| AuthFlow.TakenIsGone | src/oauth.rs:265-286 | after a take, whatever the checks say, no step of any run finds the code until it is recorded again |
| Escape.FourPassesAreOne | src/oauth.rs:370-376 | the four replacements in sequence equal one map over the characters |
| Escape.EscapeIsSafeAndReversible | src/oauth.rs:370-376 | the result has no raw `<`, `>` or `"`, and decoding the four entities once gives the value back |

## Left out

- Path and name length limits, what a trailing slash demands of the last name, permission errors and other I/O failures: trees are finite maps and only the errors that the walk can raise occur.
- Names and file contents that are not UTF-8: a path is a list of names and a file holds text, so lossy decoding does not arise.
- `create_dir_all`, `std::fs::write`, `canonicalize` and `symlink_metadata` are modelled from what the standard library and the kernel document; `Path::components` and `push` likewise, for Unix paths.
- The link budget is one number for every kind of walk; a tree near the limit of one call and not of another is not told apart.
- Changes by others to the file system between `resolve` and the operation that follows: one call sees one tree.
- FsOps.Disk: an interrupted write that leaves a file partly written is not modelled.
- JobTable.Jobs.Wait: run alone nothing changes during the wait, so the timeout plays no part; the protocol has the interleavings.
- JobTable.Jobs.Stop: stops at the decision to signal; the `kill` call, its failure and process-id reuse are not modelled.
- Mutex poisoning, anywhere.
- The pause of 20 ms before a snapshot: best effort, so no theorem rests on it; spawning, the child and the clock are inputs of a run.
- Text decoding of job output: output is bytes.
- Store.Store.TokenIsValid: the two deletions and the query are one step; a crash between the two deletions is not modelled.
- Store.Store.RedirectUris: a set, not the order of the rows; SQL statements and transactions are atomic updates with unique primary keys, and database failures other than a key conflict do not occur.
- Times beyond the 64-bit range of seconds; the clock is an input of each call.
- SHA-256 and base64: a function given by the configuration; that its values have 43 characters is a premise only where it is stated.
- UUIDs are parameters. In the store and the flow nothing assumes that they are fresh, and an insertion that meets an existing key fails. Job ids are assumed fresh: the protocol's `Insert` waits for an id never issued, where `HashMap::insert` would replace the entry of a repeated one.
- Constant-time comparison is equality; HTTP, JSON, redirects beyond the location text, page markup, logging and metadata endpoints.
- OAuth.Server.AuthorizeSubmit: the page shown again after a wrong secret is only an error value.
- Search.Search: the pattern is a predicate and the files the walker yields are a list; `list_dir` is a listing of the same walker.
- `src/config.rs`, `src/sessions.rs`, `src/auth.rs`, `src/main.rs` and `src/server.rs`: plumbing over libraries.
