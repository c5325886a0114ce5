# sl-dbg: a verified model of the debugger daemon

sl-dbg is a daemon that drives debug adapters for command-line and MCP clients. Beneath its sockets and
processes it holds several small protocols, parsers and bounded walks. This project models those in Dafny and
proves what they promise for every input, every run and every interleaving. `dafny verify dfyconfig.toml` checks all of it.

Where the Go code changes things step by step, the model is imperative: classes with the same fields, loops with
invariants, each method proved to compute a function, or to take a step, of the specification beside it. The theorems
are then about those functions and steps. A run is a list of labels (or of commands), and each label is one atomic piece of the program.

| file | what it models |
|---|---|
| `Basics.dfy` | options, bytes, lists without repetition |
| `SessionState.dfy` | the session state machine, what `state`, `listen` and a wait report |
| `StopWaiters.dfy`, `Session.dfy` | the one-shot stop waiters: the interleaved protocol, and the object with its waiter list |
| `Correlation.dfy`, `Client.dfy` | DAP requests and responses: the interleaved protocol, and the client with its pending map |
| `Text.dfy` | white space as `strings.TrimSpace` sees it, prefixes, first occurrences |
| `TomlText.dfy`, `TomlScan.dfy`, `TomlHeaders.dfy`, `TomlStrip.dfy`, `TomlInstall.dfy`, `TomlOthers.dfy`, `TomlReading.dfy`, `TomlInline.dfy`, `TomlLexing.dfy`, `TomlEditor.dfy` | the TOML table editor: strings, the line scanner, header printing and parsing, removal, installation, independence of ids, what an installed stanza reads as and which headers the scanner recognises, assignments that register servers, the string state, and the loops |
| `BreakpointMirror.dfy`, `Breakpoints.dfy` | the agreement of stored breakpoints with the adapter, and the commands that keep it |
| `Expansion.dfy` | the depth- and width-bounded expansion of values |
| `OutputLog.dfy` | bounded logs, polling, tails |
| `EnvText.dfy`, `SafePolicy.dfy`, `SafeMode.dfy` | the safe policy: the texts it is written as, which policies survive, and the way from the flags to the next daemon |
| `Redaction.dfy` | redaction of logged arguments |
| `ShellSplit.dfy` | the word splitter of the interactive shell |
| `Manager.dfy` | the default session |

## Main results

- Stop waiters: `Delivery`, `NothingDropped`, `ResumeWaiterGetsNextStop` and `InstallationReplays` hold in every interleaving of
  events, adapter death, installations and withdrawals; `Inv` is the invariant behind them.
- DAP client: `ChannelsAreSafe`, `ResponsesMatch`, `OutcomeIsFinal`, `NoCallIsForgotten` and `OnlyTimeoutOrCloseReleases` hold in every interleaving of sending,
  write failure, dispatch, timeout, reader death and Close; the invariant is ownership: each open channel has one party that may still use it.
  The methods of the client object take these steps, so all of it holds of the object.
- TOML editor: `StripRemovesExactlyTheTables`, `StripIdempotent`, `UninstallUndoesInstall`, `OthersAreKept`, `InstallReadsBack`, `TablesAreRecognised`, `InlineIsRefusedIff` and `AcceptedHeaderState`,
  for every text, id, path and argument list.
- Breakpoints: `RunStaysMirrored`, `FullAgreementIff` and `IdsAreNotReused` over every sequence of commands, each of which the methods of `Store` are proved to be.
- Expansion: `ExpansionShowsAnswer`, `DepthCoheres`, `ExpansionIsBounded` and the request bound of `ExpandRefFiltered`, for every graph.
- Terminal information: `TerminalOrderIndependent`, `TerminalReportsAgree`.
- Logs: `PollingLosesNothing`, `TailByCategory`. Policy: `PolicySurvivesIff`, `Respawn`, `ExistingKeysWin`. Redaction: `RedactionIsIdempotent`, `RedactionGivesAway`, `TextsAreClean`.
  Shell: `SplitUndoesQuoting`. Default session: `DefaultAlwaysLives`, `ResolveAgreesWithDaemon`.

## What the proofs found

Some laws that one would expect do not hold of the code as it is. For each, the model states exactly when it does; the
names in brackets are the lemmas, with one at an input where the law fails for each but the last, which is a comment.

- `unbreak` sends only line and condition again, so hit conditions and log messages of the breakpoints that stay are lost in the
  adapter. After any run there is full agreement on a file exactly when its last sending had modifiers or no breakpoint of the file has any
  (`FullAgreementIff`, `UnbreakKeepsModifiersIff`, `UnbreakLosesHitCondition`); agreement on line and condition always does.
- When the adapter process dies, `state` says "terminated" and a wait says "exited", with the same reason, code and
  signal. The two answers are the same exactly when the state was exited or no exit code is on record (`TerminalReportsAgree`, `DeathIsReportedTwoWays`).
- A read error closes what is pending and ends the reader, but does not close the client. It releases exactly the calls that were
  registered before it began to close them (`DeadReaderReleases`). A later call is written and then waits until it is given up or Close
  begins, whatever else happens (`OnlyTimeoutOrCloseReleases`, `CallAfterDeathIsStuck`, `FirstCallIsStuck`).
- Redaction passes some sensitive texts on. What it gives away is exactly what `RedactionGivesAway` says, and nothing is exactly
  under the condition of `RedactionIsCleanIff`. Given away are: a sensitive text at the top (`TopTextIsLogged`); a sensitive field name;
  in environment lists, sensitive entries with nothing before the equals sign, and sensitive texts that stand before it as names
  (`NamelessEntryIsLogged`, `TokenAsNameIsLogged`); in an environment list under a sensitive field, every entry about which nothing else is sensitive
  (`SecretListIsLogged`); and outside environment lists, in a list at the top or a mixed one and in single texts, values of sensitive names
  that pass the text test (`TopEntryIsLogged`, `MixedListIsLogged`). That every text below the top and outside environment lists passes the text test or is the mark holds always (`TextsAreClean`).
- A colon-separated list comes back from its joined form exactly when every entry is non-empty, trimmed and free of colons
  (`ListSurvivesIff`, `ColonEntryIsLost`), a policy file exactly when no value has a newline, a NUL or trailing white space
  (`FileSurvivesIff`, `TrailingBlankIsLost`), and the policy exactly when programs, cleaned roots and log path fit these forms (`PolicySurvivesIff`).
- An inline or dotted registration of a server makes the TOML editor refuse exactly when no key in it has an equals sign; with one the
  line is cut inside the key and the registration is not seen (`InlineIsRefusedIff`, `EqualsInKeyIsMissed`).
- The session list marks exactly one default exactly when the default it read before is still listed (`OneDefaultIff`, `DefaultIsMissed`).
- The comment on `print` at internal/proto/proto.go:70-71 describes depth 0 as a single level; the code takes every depth
  below 1 as 3. The model follows the code (`HandlePrint`).

## Model

| member | source | states |
|---|---|---|
| `SessionState.AfterSound` | internal/session/session.go:709-782 | In every reachable state a terminal state has its terminal event on record. |
| `SessionState.TerminalOrderIndependent` | internal/session/session.go:585-626 | Exits, terminations and adapter deaths in any order, from any state, with an exit among them, end in state exited; exit code and recorded event both have the code of the last exit. |
| `SessionState.TerminalSticky` | internal/session/session.go:760-781 | The terminal event on record never becomes empty again. |
| `SessionState.TerminalShapeAfter` | internal/session/session.go:760-781 | A recorded terminal event has a reason, names no thread or breakpoint, and in state exited carries a code. |
| `SessionState.RecordStays` | internal/session/session.go:760-781 | A terminal event on record stays on record through any further events, and an exit code with it. |
| `SessionState.TerminalReportsAgree` | internal/daemon/server.go:463-494 | When `state` or `listen` reads a terminal state and later, under another lock, the terminal event, with any events in between, both give the reason, code and signal on record at the second reading, and so does a wait that starts then; the wait's whole answer is the same exactly if the state read was exited or no code is on record. |
| `SessionState.StopIsReported` | internal/daemon/server.go:463-494 | After a stop `state` and `listen` answer with its reason and first breakpoint, `state` with its thread too. |
| `SessionState.LocationIsReported` | internal/session/session.go:904-908 | A location found later is reported with the pause. |
| `SessionState.RunningIsReported` | internal/daemon/server.go:463-494 | A running or initializing session is reported as such, and `listen` goes on to wait. |
| `SessionState.EndIsReported` | internal/daemon/server.go:473-485 | After an exit both answer with its code; after a death with the code and reason, or 128 and the signal's number with its name. |
| `SessionState.NewsIsTranslated` | internal/session/session.go:940-964 | A wait translates the fields of what it received. |
| `SessionState.DeathIsReportedTwoWays` | internal/daemon/handlers_v2.go:475-520 | A concrete adapter death that `state` reports as "terminated" and a wait as "exited". |
| `StopWaiters.StateFollowsLog` | internal/session/session.go:709-782 | The state is terminal, the terminal event is recorded and a pause can be replayed exactly as the history of events alone says. |
| `StopWaiters.PayloadTells` | internal/session/session.go:709-782 | What a waiter is sent for an event has the event's own fields. |
| `StopWaiters.FirstNoticeSpec` | internal/session/session.go:709-782 | The event owed is the payload of the first notifying event at or after a position, and there is none exactly when there is no such event. |
| `StopWaiters.LivePauseSpec` | internal/session/session.go:789-806 | There is a live pause exactly when some stop was followed only by events that keep it, and it is that stop. |
| `StopWaiters.OwedGrows` | internal/session/session.go:789-826 | What a waiter is owed, once settled, does not change as events go on; until then the next notifying event settles it. |
| `StopWaiters.WithoutSpec` | internal/session/session.go:967-1008 | Removing a waiter from the list removes it and nothing else. |
| `StopWaiters.HandleKeepsInv` | internal/session/session.go:709-782 | Handling an event keeps the invariant of the waiter protocol. |
| `StopWaiters.TakeListKeepsInv` | internal/session/session.go:814-819 | Taking the list out keeps the invariant. |
| `StopWaiters.DeliverKeepsInv` | internal/session/session.go:820-825 | Each delivery keeps the invariant, and finds its channel empty. |
| `StopWaiters.InstallKeepsInv` | internal/session/session.go:789-812 | Installing a waiter keeps the invariant. |
| `StopWaiters.ReceiveKeepsInv` | internal/session/session.go:940-964 | Receiving keeps the invariant. |
| `StopWaiters.WithdrawKeepsInv` | internal/session/session.go:967-1008 | Withdrawing between any two steps of a notification keeps the invariant. |
| `StopWaiters.StepKeepsInv` | internal/session/session.go:709-826 | Every step of the protocol keeps the invariant. |
| `StopWaiters.RunKeepsInv` | internal/session/session.go:709-826 | The invariant holds after every interleaving. |
| `StopWaiters.Delivery` | internal/session/session.go:709-826 | In every interleaving a waiter is sent at most one event, the one it is owed, and with the state mutex free every waiter that was not withdrawn has been sent it as soon as there is one. |
| `StopWaiters.NothingDropped` | internal/session/session.go:814-826 | The drop branch is never taken, a listed channel is listed once, empty and unused, and a recorded terminal event with the mutex free means an empty list. |
| `StopWaiters.ResumeWaiterGetsNextStop` | internal/session/session.go:934-936 | A resume waiter installed in a live session gets the first stop, exit, termination or adapter death after its installation, field by field, never an earlier pause. |
| `StopWaiters.InstallationReplays` | internal/session/session.go:789-812 | A new waiter finds the recorded terminal event, or else the live pause if it replays, and is registered exactly when it finds nothing. |
| `StopWaiters.RecordIsSticky` | internal/session/session.go:760-781 | Through every further step of a run a recorded terminal event stays recorded. |
| `StopWaiters.NotifierFinishes` | internal/session/session.go:814-826 | From every reachable point the notifier can run on by itself until the mutex is free: it never blocks. |
| `Session.StopChan.TrySend` | internal/session/session.go:820-825 | A send succeeds exactly when the channel is empty and never blocks. |
| `Session.Session.constructor` | internal/session/session.go:559-579 | A new session is valid, initializing, without waiters. |
| `Session.Session.NotifyWaiters` | internal/session/session.go:814-826 | Every registered channel gets the event and the list becomes empty. |
| `Session.Session.HandleEvent` | internal/session/session.go:709-782 | The state becomes that of the step function; a stop's reason, thread and first hit, an exit's code and a termination are in the fields and in what each registered waiter receives. |
| `Session.Session.WatchAdapterExit` | internal/session/session.go:585-626 | An adapter's death ends a live session: the code, or 128 and the signal's number, with the signal's name, is recorded and told to every waiter; a terminal session does not change. |
| `Session.Session.SetLastLocation` | internal/session/session.go:904-908 | Only the location of the pause changes. |
| `Session.Session.InstallStateWaiter` | internal/session/session.go:789-812 | The new channel holds the recorded terminal event, or the pause with its reason, thread, location and breakpoint, or is empty and registered last. |
| `Session.Session.Withdraw` | internal/session/session.go:967-1008 | The channel leaves the list, the others keep their order. |
| `Session.WithoutAt` | internal/session/session.go:967-1008 | Removing the first occurrence is cutting the list at its place. |
| `Correlation.CallKeepsInv` | internal/dap/client.go:152-207 | Allocating, writing, failing to write and giving up keep the ownership invariant. |
| `Correlation.RegisterKeepsInv` | internal/dap/client.go:152-173 | Registering a channel keeps it. |
| `Correlation.ReadKeepsInv` | internal/dap/client.go:101-134 | Reading a message and taking its entry out of the map keep it. |
| `Correlation.SendKeepsInv` | internal/dap/client.go:125-149 | Sending and closing outside the lock keep it. |
| `Correlation.DrainKeepsInv` | internal/dap/client.go:101-123 | The reader's death keeps it, entry by entry. |
| `Correlation.CloseKeepsInv` | internal/dap/client.go:64-82 | Close keeps it, entry by entry. |
| `Correlation.ReceiveKeepsInv` | internal/dap/client.go:176-207 | The caller's reads keep it. |
| `Correlation.StepKeepsInv` | internal/dap/client.go:64-207 | Every step keeps it: each open channel has exactly one party that may still send to it or close it. |
| `Correlation.RunKeepsInv` | internal/dap/client.go:64-207 | It holds after every interleaving. |
| `Correlation.TraceIsRun` | internal/dap/client.go:64-207 | States that follow one another by the labels are the run of the labels, so that what is proved of runs holds of every state a client object shows. |
| `Correlation.ChannelsAreSafe` | internal/dap/client.go:64-149 | In every interleaving no channel is sent to twice, closed twice, sent to after closing, or sent to while full. |
| `Correlation.ResponsesMatch` | internal/dap/client.go:125-207 | A call only gets a response with the sequence number it registered, and no two calls share a channel. |
| `Correlation.OutcomeIsFinal` | internal/dap/client.go:176-207 | A call's outcome is settled once: after a timeout no later response changes it or reaches another call. |
| `Correlation.NoCallIsForgotten` | internal/dap/client.go:125-207 | A waiting call can finish, or is still pending, or is about to be served. |
| `Correlation.CloseReleasesWaiters` | internal/dap/client.go:64-82 | After Close every waiting call whose channel the reader does not hold can finish. |
| `Correlation.PendingIsStuck` | internal/dap/client.go:101-123 | With the reader dead and the lock free a waiting call can finish exactly when it is not pending. |
| `Correlation.RunIsTraced` | internal/dap/client.go:101-173 | In every run the labels say which calls the dying reader finds: those leave the pending map, and while the client is open no later one does unless it is given up. |
| `Correlation.DeadReaderReleases` | internal/dap/client.go:101-123 | With the reader dead and the client open, a waiting call can finish exactly when it was registered before the reader began to close what was pending. |
| `Correlation.OnlyTimeoutOrCloseReleases` | internal/dap/client.go:176-207 | Through every further run such a call stays waiting with nothing to read exactly until it is given up or Close begins; after either it has ended, or can finish as soon as the lock is free. |
| `Correlation.CallAfterDeathIsStuck` | internal/dap/client.go:152-173 | A new call on a client whose reader is dead can always be registered and written, and is then stuck: it waits, was not in time, and can neither receive nor see its channel closed. |
| `Correlation.FirstCallIsStuck` | internal/dap/client.go:101-173 | The shortest such run: a read error, the end of the reader, and a first call that is stuck. |
| `Client.Client.constructor` | internal/dap/client.go:45-56 | A new client shows the protocol's first state: nothing pending, open. |
| `Client.Client.NextSeq` | internal/dap/client.go:152-173 | The protocol's Begin: the number is new. |
| `Client.Client.Register` | internal/dap/client.go:152-173 | The protocol's Register: an open client gets one new entry with a channel of its own; a closed one refuses and changes nothing. |
| `Client.Client.Forget` | internal/dap/client.go:176-207 | The protocol's WriteFails or GiveUp: exactly the call's own entry is removed. |
| `Client.Client.Take` | internal/dap/client.go:125-134 | The protocol's Match: exactly the entry of the response's request is taken, and its channel is the reader's. |
| `Client.Client.Serve` | internal/dap/client.go:125-138 | The protocol's Send and CloseSent: the response is sent to the channel the reader holds, which is open and empty, and it is closed. |
| `Client.Client.SendOne` | internal/dap/client.go:125-138 | The protocol's Send, to an open and empty channel. |
| `Client.Client.Await` | internal/dap/client.go:188-195 | The protocol's Receive or SeeClosed: a call reads its own response or finds its channel closed. |
| `Client.Client.FailPending` | internal/dap/client.go:101-123 | The protocol's DrainBegin, one DrainOne for each entry in some order, and DrainEnd: every pending channel is closed once, unsent, and the map is empty. |
| `Client.Client.ShutAll` | internal/dap/client.go:114-117 | The loop over the map takes one DrainOne for each entry. |
| `Client.Client.ShutOne` | internal/dap/client.go:114-117 | The protocol's DrainOne: one pending channel, open until then, is closed and its entry deleted. |
| `Client.Client.Close` | internal/dap/client.go:64-82 | The protocol's CloseBegin, one CloseOne for each entry in some order, and CloseEnd: the first call closes every pending channel once, unsent, and lets nothing in any more; a later call does nothing. |
| `Client.Client.CloseAll` | internal/dap/client.go:64-82 | The loop of Close takes one CloseOne for each entry. |
| `Client.Client.CloseOneOf` | internal/dap/client.go:64-82 | The protocol's CloseOne, of a channel that was open. |
| `Text.TrimVisible` | internal/cli/mcp_install.go:502-537 | Trimming keeps a visible head, and a text with visible ends as it is. |
| `TomlText.UnquoteUndoesQuote` | internal/cli/mcp_install.go:481-489 | Decoding a JSON-quoted text gives its UTF-8 bytes. |
| `TomlText.JsonBodyOneLine` | internal/cli/mcp_install.go:491-499 | A JSON-quoted text has no newline. |
| `TomlText.JsonItemsOneLine` | internal/cli/mcp_install.go:491-499 | A JSON list of texts has no newline. |
| `TomlHeaders.NewlineAfter` | internal/cli/mcp_install.go:599-633 | Appending a newline to a line never changes the resulting string state. |
| `TomlHeaders.TrimState` | internal/cli/mcp_install.go:599-633 | Outside a string, surrounding white space does not matter to the string state. |
| `TomlHeaders.AcceptedHeaderState` | internal/cli/mcp_install.go:539-633 | Every line accepted as a table header leaves the string state empty. |
| `TomlHeaders.StringEndOfJson` | internal/cli/mcp_install.go:539-597 | The scanner finds the closing quote of a JSON string where it is. |
| `TomlHeaders.JsonState` | internal/cli/mcp_install.go:599-633 | The string state skips a JSON string as a whole. |
| `TomlHeaders.ReadPrintedKey` | internal/cli/mcp_install.go:481-489 | Parsing a printed key gives the key and the text after it. |
| `TomlHeaders.HeaderRoundTrip` | internal/cli/mcp_install.go:481-597 | The printed header of any id is parsed as exactly `mcp_servers` and the id, and trims to itself. |
| `TomlStrip.ScanTracks` | internal/cli/mcp_install.go:502-537 | After every prefix the scanner's skip flag, found flag, string state and output are those the line numbers say. |
| `TomlStrip.StripRemovesExactlyTheTables` | internal/cli/mcp_install.go:502-537 | On success the output is exactly the lines outside tables headed by the id, in order, and found says whether there is one. |
| `TomlStrip.SplitConcat` | internal/cli/mcp_install.go:507 | Splitting a text put together from full lines gives these lines back. |
| `TomlStrip.ConcatSplit` | internal/cli/mcp_install.go:507 | Putting the split lines together gives the text, byte for byte. |
| `TomlStrip.NotFoundIsIdentity` | internal/cli/mcp_install.go:502-537 | If no table was found the output is the input. |
| `TomlStrip.KeptScan` | internal/cli/mcp_install.go:502-537 | Scanning the kept lines follows the scan of all lines. |
| `TomlStrip.StripIdempotent` | internal/cli/mcp_install.go:502-537 | Scanning the output again succeeds, finds nothing and returns it as it is. |
| `TomlInstall.StanzaScan` | internal/cli/mcp_install.go:491-537 | After any lines that leave no string open the scanner removes the whole stanza and nothing else. |
| `TomlInstall.PaddedScan` | internal/cli/mcp_install.go:446-479 | Padding an accepted text changes only what the scan puts out, by the padding or, inside a removed table, not at all. |
| `TomlInstall.StripUndoesStanza` | internal/cli/mcp_install.go:446-537 | Stripping the id from a padded text with a stanza appended gives the padded text. |
| `TomlInstall.UninstallUndoesInstall` | internal/cli/mcp_install.go:256-282 | Uninstalling after an installation, forced or not, gives the stripped text plus only the padding newlines; without an old table that is the old text, padded. |
| `TomlInstall.InstallNeedsFreeId` | internal/cli/mcp_install.go:446-479 | An installation without force succeeds exactly when the scanner accepts the text and finds no table; with force exactly when it accepts it. |
| `TomlInstall.ReinstallReplaces` | internal/cli/mcp_install.go:446-479 | A second installation is refused without force and with force replaces the first. |
| `TomlOthers.Utf8Injective` | internal/cli/mcp_install.go:513-515 | Different ids have different key bytes. |
| `TomlOthers.OtherStanzaScan` | internal/cli/mcp_install.go:491-537 | After any lines that leave no string open, the scanner for one id keeps the whole stanza of another. |
| `TomlOthers.OthersAreKept` | internal/cli/mcp_install.go:446-537 | For a text with or without a table of one id: after another id is installed beside it, stripping the first removes what it would have removed before, keeps the new stanza byte for byte, and keeps the padding unless the text ended in the removed table. |
| `TomlOthers.OthersAreUntouched` | internal/cli/mcp_install.go:446-537 | Without a table of the id, stripping or uninstalling it after another's installation returns the text, stanza included, as it is. |
| `TomlOthers.UninstallBeside` | internal/cli/mcp_install.go:256-282 | Uninstalling an id that has a table, beside a fresh installation of another, leaves the text without that table and the other's stanza. |
| `TomlReading.ListReadsBack` | internal/cli/mcp_install.go:491-499 | A reader that is written without the printer reads a printed list as all its texts, in order. |
| `TomlReading.CommandReadsBack` | internal/cli/mcp_install.go:491-499 | The command line reads back as the binary. |
| `TomlReading.ArgsReadBack` | internal/cli/mcp_install.go:491-499 | The argument line reads back as the whole list. |
| `TomlReading.InstallReadsBack` | internal/cli/mcp_install.go:446-499 | An installed text is what was kept, one empty line unless that is empty, and lines that read as the id, the binary and the arguments, with the environment exactly without the safe flag. |
| `TomlReading.ReadDotted` | internal/cli/mcp_install.go:539-597 | Dotted keys are read up to a closing bracket, and accepted exactly if a proper end follows. |
| `TomlReading.HeaderOfKeys` | internal/cli/mcp_install.go:539-597 | A header of a table or an array of tables printed from any keys is read as these keys. |
| `TomlReading.TablesAreRecognised` | internal/cli/mcp_install.go:508-516 | Such a line opens a table that is removed exactly when its first two keys are `mcp_servers` and the id, nested tables included. |
| `TomlReading.TrailingTextIsRefused` | internal/cli/mcp_install.go:584-597 | A header with something other than a comment after it makes the scanner refuse. |
| `TomlInline.InlineIsRefusedIff` | internal/cli/mcp_install.go:517-527 | An assignment printed from keys makes the scanner refuse exactly when it registers a server inline or by a dotted key and no key has an equals sign. |
| `TomlInline.EqualsInKeyIsMissed` | internal/cli/mcp_install.go:518-523 | The registration `mcp_servers."a=b" = ...` is not seen. |
| `TomlLexing.MultilineOpens` | internal/cli/mcp_install.go:599-633 | Three quotes open a multi-line string, and a text without the quote and backslashes does not close it. |
| `TomlLexing.MultilineCloses` | internal/cli/mcp_install.go:599-633 | Three quotes of the kind close it. |
| `TomlLexing.BackslashInside` | internal/cli/mcp_install.go:599-633 | A backslash takes the next character with it in a string in double quotes, and is a text in one in single quotes. |
| `TomlLexing.CommentEndsLine` | internal/cli/mcp_install.go:599-633 | The rest of a line after a number sign does not matter. |
| `TomlLexing.LiteralIsSkipped` | internal/cli/mcp_install.go:599-633 | A string in single quotes is skipped, whatever is in it. |
| `TomlLexing.KeyIsBareIff` | internal/cli/mcp_install.go:481-489 | A key is printed as it is exactly when it has letters, digits, underscores and hyphens only, and some. |
| `TomlLexing.JsonIsSafe` | internal/cli/mcp_install.go:481-499 | A printed string has no control character, angle bracket, ampersand or separator. |
| `TomlEditor.SkipRun` | internal/cli/mcp_install.go:599-633 | The loop over closing quotes ends at the end of their run. |
| `TomlEditor.SkipString` | internal/cli/mcp_install.go:539-633 | The loop over a quoted string ends at its closing quote. |
| `TomlEditor.TurnPlain` | internal/cli/mcp_install.go:599-633 | One turn outside strings goes on where the specified state says. |
| `TomlEditor.TurnInside` | internal/cli/mcp_install.go:599-633 | One turn inside a multi-line string does. |
| `TomlEditor.MultilineState` | internal/cli/mcp_install.go:599-633 | The loop computes the string state of the specification. |
| `TomlEditor.TakeKey` | internal/cli/mcp_install.go:539-597 | Reading one key computes the specified key and rest. |
| `TomlEditor.TomlTableKeys` | internal/cli/mcp_install.go:539-597 | The header parser computes the specified keys. |
| `TomlEditor.TakeKeys` | internal/cli/mcp_install.go:539-597 | Its loop over the keys does. |
| `TomlEditor.RegistersInline` | internal/cli/mcp_install.go:517-527 | The test for inline and dotted registrations is the specified one. |
| `TomlEditor.ScanLine` | internal/cli/mcp_install.go:508-532 | One turn of the loop is the specified step, refusals included. |
| `TomlEditor.StripMCPTable` | internal/cli/mcp_install.go:502-537 | The loop over the lines computes the specified removal, refusals included. |
| `TomlEditor.PadContents` | internal/cli/mcp_install.go:462-467 | The text is ended and one empty line is left. |
| `TomlEditor.InstallTOML` | internal/cli/mcp_install.go:446-479 | The assembled text is the specified installation, refusals included. |
| `BreakpointMirror.SentAgrees` | internal/daemon/server.go:563-577 | Whatever order a request listed the breakpoints in, with or without modifiers, the adapter then agrees on (line, condition) as a multiset. |
| `BreakpointMirror.SentInFields` | internal/daemon/server.go:563-577 | After a request with modifiers the adapter has every line, condition, hit condition and log message as often as the session has breakpoints with them. |
| `BreakpointMirror.SentFullyAgrees` | internal/daemon/server.go:563-577 | A request with modifiers makes it agree on whole entries. |
| `BreakpointMirror.BareRequestLosesModifiers` | internal/daemon/server.go:708-759 | A request without modifiers keeps full agreement exactly when no remaining breakpoint of the file has a modifier. |
| `BreakpointMirror.UnsentIsUnchanged` | internal/daemon/server.go:708-759 | A command sends every file whose breakpoints it changes. |
| `BreakpointMirror.StepKeepsMirrored` | internal/daemon/server.go:549-598 | Every command keeps the agreement on every file, keys that are the records' ids, and growing ids. |
| `BreakpointMirror.RunStaysMirrored` | internal/session/session.go:1011-1059 | After any sequence of commands the adapter's set for every file equals the stored breakpoints as a multiset of (line, condition). |
| `BreakpointMirror.IdsAreNotReused` | internal/session/session.go:1011-1017 | A removed local id never comes back. |
| `BreakpointMirror.RunKeepsSent` | internal/daemon/server.go:563-577 | In every run the adapter holds for every file the current breakpoints as the last sending of the file wrote them. |
| `BreakpointMirror.FullAgreementIff` | internal/daemon/server.go:745-756 | After any run the adapter fully agrees on a file exactly when its last sending had modifiers or no breakpoint of the file has any. |
| `BreakpointMirror.UnbreakKeepsModifiersIff` | internal/daemon/server.go:708-759 | After `unbreak` the adapter fully agrees exactly when no remaining breakpoint has a hit condition or log message. |
| `BreakpointMirror.UnbreakLosesHitCondition` | internal/daemon/server.go:745-756 | A run of two breaks, the first with a hit condition, and an unbreak of the second: the adapter fully agreed before and does not after. |
| `Breakpoints.Store.AllocBP` | internal/session/session.go:1011-1017 | Ids are handed out in order. |
| `Breakpoints.Store.RemoveBP` | internal/session/session.go:1038-1046 | Exactly the id leaves the map, and the result says whether it was there. |
| `Breakpoints.Store.BPsForFile` | internal/session/session.go:1049-1059 | Each stored breakpoint of the file once, in an arbitrary order. |
| `Breakpoints.Store.Request` | internal/daemon/server.go:564-577 | Each entry has the line and condition of its breakpoint, and with modifiers its hit condition and log message. |
| `Breakpoints.Store.Sync` | internal/daemon/server.go:563-579 | The adapter's set of one file becomes the stored breakpoints; other files keep theirs. |
| `Breakpoints.Store.ApplyReply` | internal/daemon/server.go:592-598 | The answer at each position goes to the breakpoint sent at that position, surplus answers are ignored, no other record changes. |
| `Breakpoints.Store.HandleBreak` | internal/daemon/server.go:549-598 | `break` is a step of the mirror; the new breakpoint has the next id and the given fields, and the adapter is told all of them. |
| `Breakpoints.Store.RemoveAll` | internal/daemon/server.go:708-759 | Without ids every stored breakpoint is removed and reported once. |
| `Breakpoints.Store.RemoveEach` | internal/daemon/server.go:708-759 | Of the given ids exactly those present are removed and reported. |
| `Breakpoints.Store.HandleUnbreak` | internal/daemon/server.go:708-759 | `unbreak` removes and reports exactly the chosen breakpoints and is a step of the mirror. |
| `Breakpoints.Store.SyncAll` | internal/daemon/server.go:708-759 | Exactly the given files are sent. |
| `Breakpoints.Store.HandleUntil` | internal/daemon/handlers_v2.go:743-801 | During the wait the adapter has a breakpoint at the line beside all others; afterwards none of its own is left, the adapter agrees again, and only hit counts changed, by the adapter ids that stops reported. |
| `Breakpoints.Store.RunUntil` | internal/daemon/handlers_v2.go:743-801 | The file is sent with the temporary breakpoint, hits are counted, and it is sent again without it. |
| `Breakpoints.Store.SendTemporary` | internal/daemon/handlers_v2.go:743-765 | The temporary breakpoint is stored and its whole file sent. |
| `Breakpoints.Store.ClearOnceAt` | internal/daemon/server.go:836-859 | Exactly the once-breakpoints at the location are removed, and the file is sent. |
| `Breakpoints.Store.ClearOnceBPs` | internal/session/session.go:1300-1327 | Exactly the given ids are removed, and each of their files is sent. |
| `Breakpoints.Store.RecordHits` | internal/session/session.go:726-744 | Each breakpoint's count grows by the occurrences of its adapter id, and exactly the once-breakpoints hit are named. |
| `Breakpoints.Store.CountHits` | internal/session/session.go:729-744 | The outer loop does so. |
| `Breakpoints.Store.CountHit` | internal/session/session.go:730-737 | One reported id counts once for every record with it. |
| `Breakpoints.BumpedCounts` | internal/session/session.go:729-744 | Counting one by one adds the number of occurrences. |
| `Expansion.OneCoheres` | internal/daemon/handlers_v2.go:904-954 | One entry expanded at a depth is the deeper expansion cut at that level. |
| `Expansion.DepthCoheres` | internal/daemon/handlers_v2.go:904-954 | Against any fixed graph, cyclic or not, expanding one level deeper and cutting that level gives the shallower expansion, errors and truncation included. |
| `Expansion.ExpansionIsBounded` | internal/daemon/handlers_v2.go:904-954 | The result is at most depth high and maxItems wide, and truncated exactly when more entries pass the filter than are shown. |
| `Expansion.SpecialsAreHidden` | internal/daemon/handlers_v2.go:987-996 | With the filter on no special entry shows at any level. |
| `Expansion.SpecialNames` | internal/daemon/handlers_v2.go:987-996 | Special are the names that start and end with their own two underscores, and three more. |
| `Expansion.WrapperTypes` | internal/daemon/handlers_v2.go:959-967 | Boxed are eight types, with and without their package. |
| `Expansion.ExpansionShowsAnswer` | internal/daemon/handlers_v2.go:904-954 | Said of the adapter's answers alone: node i has the name, type, value and reference of the i-th shown variable, a boxed value that of its field and none, and so on below, down to the depth; it fails exactly when the adapter does at the root. |
| `Expansion.BudgetIsGeometric` | internal/daemon/handlers_v2.go:904-954 | Outside Java the bound on requests is 1 + m + ... + m^(d-1). |
| `Expansion.PowerSumShift` | internal/daemon/handlers_v2.go:904-954 | The geometric sum grows by a factor and one. |
| `Expansion.CompactInPlace` | internal/daemon/handlers_v2.go:904-954 | The in-place compaction is the plain filter. |
| `Expansion.UnwrapJavaWrapper` | internal/daemon/handlers_v2.go:972-983 | The first field named value of a boxed object, if the adapter answers. |
| `Expansion.FilterAnswer` | internal/daemon/handlers_v2.go:904-954 | Filtering the answer in place gives the specified entries. |
| `Expansion.ExpandEntry` | internal/daemon/handlers_v2.go:904-954 | One entry shows its variable and what is below it, within its share of requests. |
| `Expansion.ExpandEntries` | internal/daemon/handlers_v2.go:904-954 | So are the entries of one level. |
| `Expansion.ExpandRefFiltered` | internal/daemon/handlers_v2.go:904-954 | The walk terminates on cyclic graphs, shows the adapter's answers, and makes at most 1 + m(1 + R(d-1)) requests in Java and 1 + m R(d-1) outside. |
| `Expansion.HandlePrint` | internal/daemon/handlers_v2.go:842-895 | Depth below 1 is 3, a limit below 1 is 50; nothing to print is a usage error, a failed evaluation or root request an adapter error; a root without a reference costs no request, any other the specified expansion within its budget. |
| `OutputLog.Log.RecordOutput` | internal/session/session.go:1066-1076 | The buffer stays the last records ever written, in order. |
| `OutputLog.Log.Outputs` | internal/session/session.go:1112-1126 | The last `tail` of the buffered records newer than the given time. |
| `OutputLog.Log.TailByCategory` | internal/session/session.go:1142-1169 | The concatenation, in order, of the newest matching records; within the limit unless it is exactly the newest non-empty one; and the next older one would not fit. |
| `OutputLog.CategoryIff` | internal/session/session.go:1142-1169 | A record counts for its category, one of the console for stderr and for nothing else. |
| `OutputLog.TextInOrder` | internal/session/session.go:1142-1169 | The text of records is their outputs in order, as far as they count. |
| `OutputLog.NewestSpec` | internal/session/session.go:1142-1169 | The newest output is that of the last record that counts and is not empty. |
| `OutputLog.NewerInOrder` | internal/session/session.go:1112-1126 | Newer are the records with later times, in order. |
| `OutputLog.PollReturnsNew` | internal/session/session.go:1112-1126 | With increasing times and no overflow one poll returns exactly the new records. |
| `OutputLog.PollingLosesNothing` | internal/session/session.go:1112-1126 | Polling with the time of the last record received yields every record exactly once and in order. |
| `EnvText.SplitJoin` | internal/daemon/policy.go:115-128 | Splitting undoes joining for parts without the separator. |
| `EnvText.ColonListEntries` | internal/daemon/policy.go:115-128 | What is read from a list is trimmed, not empty, without colon and without any character the text does not have. |
| `EnvText.ListIsTrimmed` | internal/daemon/policy.go:115-128 | Reading a joined list whose parts have visible heads and no colons gives each part trimmed. |
| `EnvText.ListSurvivesIff` | internal/daemon/policy.go:115-128 | A list comes back from its colon-joined form exactly when every entry is non-empty, trimmed and without colon. |
| `EnvText.ColonEntryIsLost` | internal/daemon/policy.go:115-128 | The program list with the one entry `a:b` does not come back. |
| `EnvText.AtoiOfItoa` | internal/daemon/policy.go:79-83 | A number that fits is read back as printed. |
| `EnvText.AtoiIff` | internal/daemon/policy.go:79-83 | A text is a number exactly when it has digits only, with at most one sign before them, and fits 64 bits. |
| `EnvText.SignedAtoi` | internal/daemon/policy.go:79-83 | A sign before a printed number is read. |
| `EnvText.ParsedAssignment` | internal/daemon/policy.go:293-311 | A written line is read back as its key and its value without the white space at the end. |
| `EnvText.SpacedAssignment` | internal/daemon/policy.go:293-311 | White space before a line, before the equals sign and at the end does not count; after the equals sign it does. |
| `EnvText.LoadWrittenLines` | internal/daemon/policy.go:287-312 | Loading the first lines of a written file gives the values of their keys. |
| `EnvText.WrittenFileLoads` | internal/cli/mcp_safe.go:266-289 | Loading a written file, whatever the order of its keys, gives every written value the environment does not have, without the white space at its end, and keeps the rest. |
| `EnvText.LoadingIsSafe` | internal/daemon/policy.go:287-312 | Line by line, existing variables win and only SL_DBG_ variables are added. |
| `EnvText.ExistingKeysWin` | internal/daemon/policy.go:287-312 | For any file and environment existing variables keep their values and no other than an SL_DBG_ variable is added. |
| `EnvText.FirstLineWins` | internal/daemon/policy.go:307-310 | Of lines that assign the same key the first wins. |
| `EnvText.FileSurvivesIff` | internal/cli/mcp_safe.go:266-289 | A file comes back into an empty environment exactly when no value has a newline, a NUL or trailing white space. |
| `EnvText.TrailingBlankIsLost` | internal/daemon/policy.go:293-311 | A log path with a blank at its end comes back without it. |
| `SafePolicy.PolicySurvivesRespawn` | internal/daemon/policy.go:71-101 | Written in any order and loaded without its keys, the safe settings give a policy with the same programs, roots, cap, log path and evaluation flag, and the denied patterns of the new environment. |
| `SafePolicy.ParseBoolIff` | internal/daemon/policy.go:107-113 | True are exactly 1, true, yes and on, in any case and with white space around. |
| `SafePolicy.CapIff` | internal/daemon/policy.go:79-83 | The cap is the number given, and 0 if it is negative, too large or none. |
| `SafePolicy.LoadedPolicyIsPersistable` | internal/daemon/policy.go:71-128 | No file gives a program or log path that does not fit the file's form. |
| `SafePolicy.SurvivingRootsArePersistable` | internal/daemon/policy.go:115-141 | If the roots come back, they were trimmed, without colon, newline and NUL. |
| `SafePolicy.PolicySurvivesIff` | internal/daemon/policy.go:71-101 | For every cleaning of paths that makes them absolute, settles them, does not lengthen absolute ones and brings in no colon, newline or NUL: programs, roots and log path survive, and then the whole policy does, exactly when every program, every cleaned root and the log path fit the file's form. |
| `SafeMode.Environ.LoadSafePolicyFile` | internal/daemon/policy.go:287-312 | The loop sources the file as specified; without a file nothing changes. |
| `SafeMode.Environ.LoadOne` | internal/daemon/policy.go:293-311 | One line is skipped or set as specified. |
| `SafeMode.Environ.Setenv` | internal/daemon/policy.go:310-310 | A variable is set unless there is a NUL. |
| `SafeMode.Environ.LoadPolicyFromEnv` | internal/daemon/policy.go:71-101 | The policy is that of the environment after sourcing the file; the denied patterns are the twelve defaults if unset, none for a dash, and else the list given. |
| `SafeMode.Environ.Apply` | internal/cli/mcp_safe.go:229-248 | The updates win over the environment, nothing else changes, and the file holds all of them, each once. |
| `SafeMode.Environ.ExportAll` | internal/cli/mcp_safe.go:236-238 | The loop over the map sets exactly the updates. |
| `EnvText.WriteSafePolicyFile` | internal/cli/mcp_safe.go:266-289 | The text has each key once, in some order. |
| `EnvText.SplitColonList` | internal/daemon/policy.go:115-128 | The loop gives the specified list. |
| `SafeMode.ResolveMCPSafePolicy` | internal/cli/mcp_safe.go:78-175 | Over the raw flags: insecure exactly when the environment opts out and safe mode is not asked for; refused exactly without a program or a root; else given programs or the discovered ones, given roots or the working directory, the given positive cap or 8, the given log or the default, and evaluation "1" exactly with its flag. |
| `SafeMode.FillSettings` | internal/cli/mcp_safe.go:126-167 | The five settings, evaluation "0" without its flag. |
| `SafeMode.DiscoveredSpec` | internal/cli/mcp_safe.go:203-225 | Exactly the canonical paths of the names found, each once. |
| `SafeMode.DiscoveredOrder` | internal/cli/mcp_safe.go:203-225 | The paths stand in the order of the names, each at the first name that has it. |
| `SafeMode.AutoDiscoverPrograms` | internal/cli/mcp_safe.go:203-225 | The loop over the candidates finds them in order. |
| `SafeMode.Respawn` | internal/cli/mcp_safe.go:229-248 | From raw flags to the next daemon: programs, roots, cap, log path and the evaluation flag of its policy are those of the flags or the safe defaults exactly when they fit the file's form; a refusal changes nothing. |
| `Redaction.EnvSettled` | internal/daemon/redact.go:82-107 | Redacting an environment list twice is redacting it once, and it stays an environment list. |
| `Redaction.NeverBecomesEnv` | internal/daemon/redact.go:57-93 | A list that is not environment-like never becomes so. |
| `Redaction.FieldSettled` | internal/daemon/redact.go:57-80 | Redacting a field is idempotent. |
| `Redaction.ValueSettled` | internal/daemon/redact.go:109-126 | Redacting a value below the top is idempotent. |
| `Redaction.RedactionIsIdempotent` | internal/daemon/redact.go:57-126 | Redacting any tree twice is redacting it once, whatever the sensitivity tests. |
| `Redaction.ShapeIsKept` | internal/daemon/redact.go:57-126 | Key sets and list lengths are kept except where a whole value became the mark. |
| `Redaction.RestIsKept` | internal/daemon/redact.go:57-126 | Only what is sensitive is changed: numbers never, a text only if it or its name is sensitive, a field as a whole only if its name is. |
| `Redaction.TextsAreClean` | internal/daemon/redact.go:57-126 | For every value: below the top and outside environment lists, every text that is left passes the text test or is the mark. |
| `Redaction.EnvGiven` | internal/daemon/redact.go:82-107 | A redacted environment list, under a sensitive field or not, gives away exactly its entries that are not harmless. |
| `Redaction.RedactionGivesAway` | internal/daemon/redact.go:57-126 | What a redacted value still gives away, said without looking at what redaction does, is exactly the passed-on texts that are not harmless, at the same places. |
| `Redaction.RedactionIsCleanIff` | internal/daemon/redact.go:57-126 | Nothing is given away exactly when every passed-on text is harmless, a condition on the input: the text at the top, field names, texts that pass the text test, and the entries of environment lists, with a stricter condition under a sensitive field. |
| `Redaction.NamelessEntryIsLogged` | internal/daemon/redact.go:95-107 | `{"args":["=password=hunter2"]}` is logged as it is, and gives the entry away. |
| `Redaction.TokenAsNameIsLogged` | internal/daemon/redact.go:95-107 | Any sensitive token with an equals sign after it, alone in a list, is logged with the token as the name. |
| `Redaction.SecretListIsLogged` | internal/daemon/redact.go:60-71 | `{"password":["a=hunter2"]}` is logged as it is: the environment list is looked for before the field's name is. |
| `Redaction.TopEntryIsLogged` | internal/daemon/redact.go:75-79 | `["AUTH=hunter2"]` as the whole argument is logged as it is. |
| `Redaction.MixedListIsLogged` | internal/daemon/redact.go:82-93 | So is `AUTH=hunter2` in a list with an item that has no equals sign. |
| `Redaction.TopTextIsLogged` | internal/daemon/redact.go:57-80 | The text `password=hunter2` at the top is logged as it is. |
| `Redaction.ScrubEnvListInPlace` | internal/daemon/redact.go:95-107 | The loop overwrites the entries as specified. |
| `Redaction.ScrubEnvList` | internal/daemon/redact.go:95-107 | The list of the specification. |
| `Redaction.ScrubObject` | internal/daemon/redact.go:57-80 | The loop over the fields, in any order, gives the specified object. |
| `Redaction.ScrubItems` | internal/daemon/redact.go:57-80 | The loop over the items gives the specified list. |
| `Redaction.ScrubOne` | internal/daemon/redact.go:109-126 | A value below the top becomes the specified one. |
| `Redaction.RedactArgs` | internal/daemon/redact.go:41-55 | No arguments are logged as nothing, undecodable ones as such, and others as the specified tree. |
| `ShellSplit.SplitShell` | internal/cli/repl.go:114-158 | The loop gives the specified words, or refuses an unterminated quote. |
| `ShellSplit.ScanQuoted` | internal/cli/repl.go:114-158 | A word in double quotes, in single quotes, or without quotes and with backslashes before the characters that need one, becomes part of the current word. |
| `ShellSplit.SplitUndoesQuoting` | internal/cli/repl.go:114-158 | Any list of words, each written in any of these three ways and separated by blanks, comes back as it was. |
| `ShellSplit.PlainWordsComeBack` | internal/cli/repl.go:114-158 | Words of plain characters separated by blanks come back as they are. |
| `ShellSplit.OpenQuoteIsRefused` | internal/cli/repl.go:151-153 | A quote that is opened and not closed is refused. |
| `ShellSplit.BackslashInQuotes` | internal/cli/repl.go:132-137 | In double quotes a backslash takes any next character, in single quotes none. |
| `ShellSplit.LastBackslash` | internal/cli/repl.go:132-149 | A backslash at the end of the line is a character. |
| `Manager.DefaultAlwaysLives` | internal/session/session.go:217-268 | After any run of registrations, removals and choices the default names a live session exactly when one exists. |
| `Manager.OneDefaultIff` | internal/daemon/server.go:419-433 | The default id is read before the list: exactly one row is marked exactly when that session is still there. |
| `Manager.DefaultIsMissed` | internal/daemon/server.go:419-433 | Two sessions are registered, the default is read and removed, and the list that is read then marks no default. |
| `Manager.ResolveAgreesWithDaemon` | internal/mcp/server.go:248-286 | With nothing in between the two readings the list marks exactly one default, and the client's resolution of an empty id names the session the daemon would use. |
| `Manager.ResolveFallback` | internal/mcp/server.go:269-286 | Without a marked row an empty id is the one session that is neither exited nor terminated, or else the only session, or stays empty. |
| `Manager.ResolveMarked` | internal/mcp/server.go:263-268 | The first marked row goes first. |
| `Manager.Manager.RegisterSession` | internal/session/session.go:652-661 | The new session becomes the default. |
| `Manager.Manager.SetDefaultSession` | internal/session/session.go:231-239 | An unknown id changes nothing. |
| `Manager.Manager.RemoveSession` | internal/session/session.go:249-268 | Removing the default promotes some remaining session, removing another keeps the default. |
| `Manager.Manager.Get` | internal/session/session.go:217-228 | The named session, or the default for an empty id. |
| `Manager.Manager.HandleSessions` | internal/daemon/server.go:419-433 | Every session once with its state, exactly the one with the default id read before marked. |
| `Manager.ResolveSession` | internal/mcp/server.go:248-286 | An explicit id is kept, an empty one resolved as specified. |

## Left out

- Sockets, pid files, process spawning, downloads and the command-line plumbing: effects on the operating system without logic of their own.
- Real time and timers: a timeout, a cancellation and the withdrawal of a waiter are steps that may happen at any point; timestamps are numbers from outside.
- Event subscriber channels of the DAP client: dispatch sends to them outside the lock while Close may close them, so closing safety is only claimed for response channels.
- The session cap and the uniqueness of names under concurrent starts: both are checked without holding a slot.
- The failed-request paths of `break`, `until` and `unbreak`, and once-clearing that races with another command: no agreement is kept there.
- Breakpoints.Store.HandleUntil: failed requests are left out, and so is once-clearing that a stop starts during the wait and that races with it; the adapter's ids for the temporary breakpoint are ignored by the code too.
- Function breakpoints beyond the ids they take, exception filters and watches: every request sends the whole list and no command removes a function breakpoint, so what the adapter holds is the last list sent.
- Breakpoints.Store.HandleBreak: the checks of its arguments before anything is stored, and an adapter error, after which the new breakpoint stays stored and the adapter keeps its old set, are left out.
- Breakpoints.Store.ApplyReply: records are values stored under their key, so the sharing of one record between the map and a command's list is not modelled.
- Redaction.ScrubObject: objects are immutable maps rebuilt key by key, so aliasing between decoded values, which JSON decoding does not produce, is not modelled.
- Redaction.ScrubEnvList: the entries are overwritten in an array of their own and the result is given back as a value.
- TomlInstall.UninstallUndoesInstall: text is a sequence of Unicode scalar values, as TOML version 1.0.0 requires of a file; ids, paths and arguments that are not valid UTF-8, and an argument list that is nil (printed as `null`), are not modelled.
- TomlEditor.InstallTOML: the dry run, read errors and the atomic write of the file are left out, as are the agents that are configured in JSON.
- SafePolicy.PolicySurvivesIff: `filepath.Abs` and `filepath.Clean` are one function with the four properties stated; that `Abs` can fail on a relative path, and a working directory with a colon or newline in its name, are not modelled.
- SafeMode.ResolveMCPSafePolicy: the texts of refusals and warnings, and roots whose absolute form cannot be found, are left out.
- SafeMode.Environ.LoadPolicyFromEnv: the code drops a root whose absolute form cannot be found; here every path has one.
- SafeMode.Environ.Apply: printing the warnings is left out, and so are file-system errors, which only mean that the old file stays.
- The regular expressions of redaction, program globs and the path checks of the policy: redaction takes its two tests as arbitrary predicates.
- Tool schemas, prompts, error classification, version and timeout parsing: tables without laws.
