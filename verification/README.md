# lmux: a model of its state machines, and proofs about them

lmux is a terminal multiplexer with a nested compositor. This project models the parts of it that decide
something over whole runs, in the form they have in the program (classes with fields, loops over bytes,
methods that change a map), and proves what those parts are for.

| component | files | main results |
|---|---|---|
| terminal-query scanner | `TerminalQueries.dfy` | the re-scanning loop computes a declarative segmentation of the stream; replies read back as the answers asked for, and are independent of chunking exactly when no OSC string ends in a look-alike query behind at least 63 bytes |
| bell scanner | `BellScanner.dfy` | the count is the BEL bytes outside OSC strings that no ESC escapes; the two scanners cut a stream alike exactly when no `]` outside a string follows an even, positive run of ESC |
| nested-compositor surfaces | `SurfaceHost.dfy`, `SurfaceHistory.dfy` | in every run the event log is well formed, what it shows of each surface is a function of the calls alone, and the parents it names are known |
| shared-memory copies | `ShmCopy.dfy` | reads stay inside the mapping, each pixel comes from its place, RGB is RGBA without alpha |
| window-switch bridge | `CompositorBridge.dfy` | in every interleaving operations never go back to an older command, and at quiescence the last command holds; any interleaving does what the two loops do |
| session store and index | `SessionIndex.dfy`, `SessionStore.dfy` | an operation keeps index and files in agreement exactly when it is not a destructive one on the name `index`; every other run is one of a plain map from names to sessions |
| transcript ring | `Transcript.dfy` | the ring refines an unbounded log; polling is gap-free and duplicate-free |
| scrollback search | `ScrollbackSearch.dfy` | matches are greedy, leave no gap and are as many as possible; exactly when a search aborts; stepping visits each once |
| agent grants | `AgentGrants.dfy` | exactly when a whole decision is independent of map order; one-time permissions are conserved; every success goes back to a standing decision |
| pane layout and restore | `PaneLayout.dfy` | what a move does to the order of the panes and to the split between any two; removing ghosts one by one is cutting the tree down at once |
| bus framing, connection, client | `BusCodec.dfy`, `BusConversation.dfy`, `BusClient.dfy`, `BusExample.dfy` | framing is invertible both ways; each frame gets its own reply; the handler is gated by hello; what the handler answers or refuses is what the client gets |

Loops and methods of the program are methods here, proved against specification functions or declarative
predicates on sequences and maps; the lemmas are about those.

Where the model found the code to do less than its comments suggest, the exact condition is proved:

* a carry-over above 64 bytes is dropped, so a query that is only part of a longer OSC string can be answered
  (`ChunkInvarianceIff`, `CapCanForgeReply`);
* a session named `index` shares its file with the index (`AgreementIff`, `IndexNameCollides`);
* listing after a corrupt index moves the index away without writing the rebuilt one, so the next listing is
  empty (`ListingLosesRebuild`);
* an empty transcript reply reports last sequence 0, and a client that stores it is sent lines again
  (`EmptyReplyResetsIff`);
* a grant decision can depend on map order, for requests registered directly (`HandRegistrationDependsOnOrder`,
  `RegistrationKeepsIff`) and for an agent with panes under two anchors (`TwoAnchorsDependOnOrder`); exactly when
  it does not is `DecisionOrderFreeIff`;
* searching a line can abort where lower-casing changes the width of a character in front of a match (`AbortsIff`,
  `KelvinSignAborts`);
* a popup can be announced with a parent that never was (`ParentIsLiveIff`, `ParentNeverCreated`);
* the next pane id after a restore is above every leaf exactly when no leaf is the largest 32-bit number
  (`RestoredIsConsistent`, `LargestLeafWraps`);
* a reply above the frame limit ends the connection without an answer, after the request has been carried out
  (`AnsweredIff`, `SilenceIsEofIff`, `OversizedReply`);
* a client of another user is told of an id mismatch, not of the denial (`IdCheckIff`, `ForeignPeer`).

Inputs the program takes from elsewhere are parameters: the bytes read, the clock, random ids, directory
listing order, map iteration order, whether a spawn or a window operation succeeds, which Wayland surfaces
are alive, Unicode lower-casing, and what JSON decoding yields.

## Model

| member | source | states |
|---|---|---|
| TerminalQueries.Terminal.RespondToTerminalQueries | crates/lmux-libghostty/src/lib.rs:659-696 | after any chunk the output has grown by exactly the replies to the strings that the automaton, resumed from the carried bytes, terminates, and the new carry is the automaton's, dropped if above 64 bytes |
| TerminalQueries.Terminal.Feed | crates/lmux-libghostty/src/lib.rs:273-282 | one chunk handed to the terminal is one scanned chunk, and the carry never exceeds the cap |
| TerminalQueries.Terminal.TakePtyOutput | crates/lmux-libghostty/src/lib.rs:284-288 | the replies so far are handed over once and the buffer is empty afterwards |
| TerminalQueries.Terminal.RespondToOscQuery | crates/lmux-libghostty/src/lib.rs:698-705 | a body is answered exactly when it asks for colour 10, 11 or 12; what the answer says is `RepliesReadBack` |
| TerminalQueries.Terminal.StorePendingOscQuery | crates/lmux-libghostty/src/lib.rs:707-712 | a suffix above 64 bytes is dropped whole, never truncated |
| TerminalQueries.OscBodyEnd | crates/lmux-libghostty/src/lib.rs:715-727 | finds the first BEL or ESC backslash, with its length, or none if there is none |
| TerminalQueries.ScanIsSegmentation | crates/lmux-libghostty/src/lib.rs:663-689 | the scan yields exactly the bodies of the declarative segmentation: from each first introducer to the first terminator behind it, in order |
| TerminalQueries.SegmentationExists | crates/lmux-libghostty/src/lib.rs:663-689 | every byte stream has such a segmentation |
| TerminalQueries.TailBlockIsDead | crates/lmux-libghostty/src/lib.rs:691-695 | when the loop runs off the end, the input ends in neither ESC nor ESC ], so the block after it never stores anything |
| TerminalQueries.FoldConcat | crates/lmux-libghostty/src/lib.rs:659-696 | without the cap, scanning a stream in two parts with the carry in between is scanning it at once |
| TerminalQueries.CarryResumes | crates/lmux-libghostty/src/lib.rs:660-661 | prepending the carried suffix to the next chunk and scanning from the start resumes where the last scan stopped |
| TerminalQueries.ChunksWithinCap | crates/lmux-libghostty/src/lib.rs:659-713 | as long as no carried suffix exceeds 64 bytes, any split into chunks gives the same strings and the same final carry |
| TerminalQueries.ChunkInvarianceIff | crates/lmux-libghostty/src/lib.rs:707-713 | the replies are the same for all splits of a stream, overflowing ones included, exactly when no terminated string is at least 63 bytes followed by ESC ] and a query |
| TerminalQueries.CapCanForgeReply | crates/lmux-libghostty/src/lib.rs:707-713 | a stream that fed at once is not answered at all, and is answered when cut in front of the look-alike |
| TerminalQueries.RepliesAreInert | crates/lmux-libghostty/src/lib.rs:729-737 | a reply read back by another scanner is one whole string that is not a query, and changes nothing for what follows |
| TerminalQueries.RepliesReadBack | crates/lmux-libghostty/src/lib.rs:698-705 | a decoder of colour replies reads what is sent back as one answer for each body that is `10;?`, `11;?` or `12;?`, in order, with the foreground eeee/eeee/eeee, the background 0/0/0 and the cursor eeee/eeee/eeee |
| TerminalQueries.ColorReplyReadsBack | crates/lmux-libghostty/src/lib.rs:729-737 | a reply is two digits of the code and the groups red, green, blue in hexadecimal, each 0x101 times the channel |
| Bells.BellScanner.Scan | crates/lmux/src/pane.rs:102-133 | the count and the new flags are those of the automaton resumed from the old flags |
| Bells.ChunksAddUp | crates/lmux/src/pane.rs:102-133 | counts of chunks add up to the count of the whole, for any chunking |
| Bells.CountIsAudibleBells | crates/lmux/src/pane.rs:91-133 | on a stream where the scanners agree the count is exactly the BEL bytes that lie outside the query scanner's strings and are not the second byte of an ESC pair |
| Bells.CutAlikeIff | crates/lmux/src/pane.rs:102-133 | the bell automaton is inside a string at the same positions as the query scanner throughout exactly when no `]` outside a string follows an even, positive run of ESC |
| Bells.NoDoubleEscMeansAlike | crates/lmux/src/pane.rs:102-133 | in particular they agree on every stream without ESC ESC outside the strings |
| SurfaceHost.StepKeepsInv | crates/lmux-wayland-host/src/state.rs:483-690 | every handler keeps the invariant: the log is legal id by id, stored state fits the log's phase of each id, and replaying the log gives the stored view |
| SurfaceHost.EveryRun | crates/lmux-wayland-host/src/state.rs:282-1256 | in every run each id is created at most once and closed at most once, a closing has the kind of the creation, frames, titles and app ids lie strictly between, and replaying the log from nothing gives the last title, last app id and popup geometry of all announced, tracked surfaces |
| SurfaceHost.LegalLogIsWellFormed | crates/lmux-wayland-host/src/state.rs:300-330 | the one-event-at-a-time legality amounts to the ordering conditions on positions in the log |
| SurfaceHost.FreshIds | crates/lmux-wayland-host/src/state.rs:296-298 | a surface becomes tracked only under an id that the log has never mentioned |
| SurfaceHost.ClosedWithoutCreated | crates/lmux-wayland-host/src/state.rs:1241-1256 | a run whose log is one closing: a surface destroyed before its first commit |
| SurfaceHost.ParentsAreKnown | crates/lmux-wayland-host/src/state.rs:527-647 | in every run a creation names only a parent whose id was handed out, a popup only one handed out before its own, and a child toplevel never itself unless the toolkit said so |
| SurfaceHost.ParentIsLiveIff | crates/lmux-wayland-host/src/state.rs:527-647 | a parent is open in the log exactly while it is tracked and announced |
| SurfaceHost.ParentNeverCreated | crates/lmux-wayland-host/src/state.rs:527-553 | a run whose log is the creation of a popup with a parent that was never created |
| SurfaceHost.OwnParent | crates/lmux-wayland-host/src/state.rs:588-609 | a run in which a toplevel is announced as its own child, after the toolkit named it as its own parent |
| SurfaceHistory.ReplayIsHistory | crates/lmux-wayland-host/src/state.rs:483-690 | in every run, what the log shows of an id is a function of the steps alone: the title and app id of its last commit, the parent it took over first, and for a popup the place of its last placement with sizes raised to 1 |
| SurfaceHistory.EveryCallTells | crates/lmux-wayland-host/src/state.rs:282-1256 | in every run, what each call adds to the log follows from the steps so far: the creation with names, parent, sizes and place, the changed title and app id, the frame of the attachment, the move with its token, the closings of the right kind, the cursor with its focus |
| SurfaceHost.State.OnNewToplevel | crates/lmux-wayland-host/src/state.rs:1110-1134 | the new state is the transition's |
| SurfaceHost.State.OnNewPopup | crates/lmux-wayland-host/src/state.rs:1136-1184 | the new state is the transition's, for an unknown parent and a popup that cannot be configured too |
| SurfaceHost.State.OnCommit | crates/lmux-wayland-host/src/state.rs:483-690 | which of the four kinds of commit it is, and that the new state and log are that transition's, whose events `EveryCallTells` pins to the steps |
| SurfaceHost.State.OnReposition | crates/lmux-wayland-host/src/state.rs:1194-1226 | the new geometry is stored and reported, before the first commit too |
| SurfaceHost.State.OnPopupDestroyed | crates/lmux-wayland-host/src/state.rs:1228-1239 | the popup is forgotten and its closing reported |
| SurfaceHost.State.OnToplevelDestroyed | crates/lmux-wayland-host/src/state.rs:1241-1256 | the toplevel is forgotten and a closing of its own kind reported |
| SurfaceHost.State.ReapDeadPopups | crates/lmux-wayland-host/src/state.rs:282-294 | exactly the popups without a live surface are closed, each once |
| SurfaceHost.State.ReapDeadToplevels | crates/lmux-wayland-host/src/state.rs:314-330 | exactly the toplevels without a live surface are closed, each once and with its own kind |
| SurfaceHost.State.OnCursorImage | crates/lmux-wayland-host/src/state.rs:1062-1096 | cursor changes leave surfaces and ids alone |
| ShmCopy.CopyShmToRgb | crates/lmux-wayland-host/src/state.rs:911-972 | the loop is the row-by-row copy, refused exactly when a guard fails |
| ShmCopy.CopyShmToRgba | crates/lmux-wayland-host/src/state.rs:849-901 | the same with alpha, 255 for the format without |
| ShmCopy.CopyHolds | crates/lmux-wayland-host/src/state.rs:849-972 | with passing guards all reads are inside the mapping and channel c of pixel (x, y) comes from offset + y * stride + 4 * x |
| ShmCopy.CopyChannels | crates/lmux-wayland-host/src/state.rs:849-972 | channels 0, 1 and 2 of each pixel are its bytes 2, 1 and 0 in the mapping, and channel 3 is its byte 3, or 255 where that is padding; the copy is packed without gaps |
| ShmCopy.CopiedIff | crates/lmux-wayland-host/src/state.rs:849-972 | of a mapping no longer than memory, a buffer is copied exactly if its sizes are positive, its format is one of the two, each row's pixels fit in its stride and each row lies inside the mapping with its whole stride; the overflow guards refuse nothing more |
| ShmCopy.RgbIsRgbaWithoutAlpha | crates/lmux-wayland-host/src/state.rs:849-972 | both copies accept the same buffers and agree on the three colour channels of each pixel |
| CompositorBridge.StepKeepsInv | crates/lmux/src/compositor_bridge.rs:39-46 | every step of sender, drainer and window switch keeps the invariant tying queue, shared sequence, current command and operations done |
| CompositorBridge.OpsNeverGoBack | crates/lmux-compositor/src/lib.rs:356-386 | in every interleaving no operation of an older command follows one of a newer, and each operation is one an issued command asks for |
| CompositorBridge.Convergence | crates/lmux/src/compositor_bridge.rs:81-159 | at quiescence the last command's operations are complete and final, and if they succeeded every window it names is as it says, a show overriding a hide |
| CompositorBridge.DrainerProgress | crates/lmux/src/compositor_bridge.rs:81-159 | unless quiescent the drainer can step, and its steps bring it closer to quiescence |
| CompositorBridge.StaleDropIsDead | crates/lmux/src/compositor_bridge.rs:114-122 | with one strictly increasing sender the drainer's own staleness check never fires |
| CompositorBridge.AbortIsFinal | crates/lmux-compositor/src/lib.rs:363-386 | after a load that found a newer sequence no operation of the command follows |
| CompositorBridge.Coalesce | crates/lmux/src/compositor_bridge.rs:88-103 | of the commands taken from the queue the newest is kept, the last to come among equals, and with increasing numbers all others are counted as dropped |
| CompositorBridge.ApplyWindowGroupSwitch | crates/lmux-compositor/src/lib.rs:329-351 | all hides and then all shows, each with its own outcome |
| CompositorBridge.ApplyWindowGroupSwitchLatest | crates/lmux-compositor/src/lib.rs:356-386 | hides up to the first newer load, and then shows up to the first newer load; with no newer load, what the plain switch does |
| CompositorBridge.DrainerRunsGroupSwitch | crates/lmux-compositor/src/lib.rs:356-386 | in any interleaving with the sender, from a settled command until the drainer waits again, the operations are exactly those the group switch returns for the loads that were made and the answers the backend gave, in their order |
| CompositorBridge.OutcomesAreAnswers | crates/lmux-compositor/src/lib.rs:329-386 | in any interleaving, from any state, the operations added carry the backend's answers one by one |
| CompositorBridge.DrainerCoalesces | crates/lmux/src/compositor_bridge.rs:87-103 | in any interleaving, what the drainer holds while it empties the queue is what the coalescing loop keeps of the commands taken |
| CompositorBridge.NewestIsOne | crates/lmux/src/compositor_bridge.rs:88-103 | which command that is, is determined |
| SessionIndexes.TouchedEntries | crates/lmux-session/src/lib.rs:126-138 | touching makes one name current, leaves every other entry, one entry a name, newest first |
| SessionIndexes.RenamedEntries | crates/lmux-session/src/lib.rs:146-150 | renaming in the index changes that name alone and keeps order |
| SessionIndexes.SortIsStable | crates/lmux-session/src/lib.rs:134-137 | sorting keeps entries with the same timestamp in their order |
| SessionIndexes.SameEntriesSameList | crates/lmux-session/src/lib.rs:126-138 | two sorted indexes with the same entries and distinct timestamps are the same list |
| SessionIndexes.SessionIndex.Touch | crates/lmux-session/src/lib.rs:126-138 | the entries become those of the specification |
| SessionIndexes.SessionIndex.Remove | crates/lmux-session/src/lib.rs:141-143 | exactly the entries of that name are gone |
| SessionIndexes.SessionIndex.Rename | crates/lmux-session/src/lib.rs:146-150 | the first entry of that name is renamed |
| SessionStore.AgreementIff | crates/lmux-session/src/store.rs:78-162 | from agreement, any operation, failing or not, ends in agreement exactly when it is not one of the destructive ones on the name `index` |
| SessionStore.EveryRunAgrees | crates/lmux-session/src/store.rs:78-200 | in every run without those, index names are duplicate-free and equal the session files, timestamps equal each file's, newest first |
| SessionStore.FilesStay | crates/lmux-session/src/store.rs:78-162 | in every run a session's file stays as it is until an operation names that session |
| SessionStore.StoreIsAMap | crates/lmux-session/src/store.rs:78-168 | in every run from nothing on names other than `index`, the store is a plain map from names to sessions: each operation fails as on the map, and loading gives the session last created, saved or renamed under the name, with all it holds, or that it is not there |
| SessionStore.SavedIsLoaded | crates/lmux-session/src/store.rs:129-168 | whatever the directory holds, a session saved under a name other than `index` is what loading that name gives, and loading leaves the directory alone |
| SessionStore.CorruptFilesAreKept | crates/lmux-session/src/store.rs:129-188 | a corrupt session file or index is moved whole to its name with `.bad.` and the time, every other file stays, and loading gives a new session of that name |
| SessionStore.NamesStayInside | crates/lmux-session/src/store.rs:245-274 | a session's file has a plain, visible name without separators, so it lies in the store's directory |
| SessionStore.IndexNameCollides | crates/lmux-session/src/store.rs:68-87 | creating a session called `index` succeeds and destroys the agreement |
| SessionStore.RebuildRecreates | crates/lmux-session/src/store.rs:202-236 | rebuilding in any listing order gives the stored entries, and the identical list when no two sessions were opened at the same time |
| SessionStore.WritesRecover | crates/lmux-session/src/store.rs:170-200 | after a corrupt index any succeeding operation that writes the index restores agreement |
| SessionStore.ListingLosesRebuild | crates/lmux-session/src/store.rs:151-188 | a listing over a corrupt index is right once and empty from then on, unless there was nothing to list |
| SessionStore.RenameThereAndBack | crates/lmux-session/src/store.rs:90-111 | renaming and renaming back restores the directory to the letter, index included |
| SessionStore.Store.Create | crates/lmux-session/src/store.rs:78-87 | result and new directory are those of the transition, errors included |
| SessionStore.Store.Rename | crates/lmux-session/src/store.rs:90-111 | the same for renaming |
| SessionStore.Store.Delete | crates/lmux-session/src/store.rs:114-124 | the same for deleting |
| SessionStore.Store.Load | crates/lmux-session/src/store.rs:129-148 | the session stored under a name, or an empty one with the malformed file kept under a name ending in the time |
| SessionStore.Store.List | crates/lmux-session/src/store.rs:151-153 | the entries of the index as read |
| SessionStore.Store.Save | crates/lmux-session/src/store.rs:157-162 | the same for saving; that what was saved is loaded is `SavedIsLoaded` |
| SessionStore.Store.ReadIndex | crates/lmux-session/src/store.rs:170-188 | absent, readable and corrupt index files |
| SessionStore.Store.RebuildIndexFromSessions | crates/lmux-session/src/store.rs:202-236 | the loop over the directory gives the specified entries |
| SessionStore.Store.RenameAside | crates/lmux-session/src/store.rs:276-284 | the file is kept under its name with `.bad.` and the time, and gone under its own |
| Texts.DecimalReadsBack | crates/lmux-session/src/store.rs:276-284 | the time in that name is a decimal numeral of it |
| Transcripts.TranscriptBuffer.AppendLine | crates/lmux/src/pane.rs:209-222 | the ring holds exactly the last lines of the unbounded log, numbered from 1, and knows the first number it still holds |
| Transcripts.TranscriptBuffer.Tail | crates/lmux/src/pane.rs:224-228 | the last lines of the log, as many as asked for and held, with the numbers of the first and last of them |
| Transcripts.TranscriptBuffer.CaptureSince | crates/lmux/src/pane.rs:230-248 | the reply of the specification |
| Transcripts.CaptureIsSlice | crates/lmux/src/pane.rs:230-269 | a reply is one contiguous slice of the log, of the length asked for as far as there are lines, with the numbers of its first and last line, or 0 if it has none |
| Transcripts.TruncatedIff | crates/lmux/src/pane.rs:230-248 | `truncated` holds exactly when line `since` itself is gone, while a line is missing from the reply only when line `since + 1` is gone |
| Transcripts.PollingIsGapFree | crates/lmux/src/pane.rs:230-269 | polling by last sequence with any limits between any appends, none truncated, has received exactly the log between first and current cursor |
| Transcripts.UnlimitedPollCatchesUp | crates/lmux/src/pane.rs:230-248 | an unlimited poll that is not truncated brings the client up to date |
| Transcripts.EmptyReplyResetsIff | crates/lmux/src/pane.rs:250-269 | when a client that stores the 0 of an empty reply is sent lines again |
| Transcripts.DistinctNumbersIff | crates/lmux/src/pane.rs:209-222 | held lines have different numbers exactly until the 64-bit counter saturates |
| ScrollbackSearch.FindMatchesInLine | crates/lmux/src/pane.rs:1353-1381 | for any text and any lower-casing the loop returns a match for each greedy occurrence, columns counted in characters of the line and capped at 16 bits, or aborts if one has no column |
| ScrollbackSearch.FindMatchesInText | crates/lmux/src/pane.rs:1289-1294 | the matches of all lines in order, or an abort exactly if some line aborts |
| ScrollbackSearch.AbortsIff | crates/lmux/src/pane.rs:1353-1366 | a search aborts exactly when some greedy occurrence begins, in bytes of the lower-case form, where the line has no boundary between characters |
| ScrollbackSearch.KelvinSignAborts | crates/lmux/src/pane.rs:1353-1366 | a line with the Kelvin sign, searched for what stands behind it, aborts |
| ScrollbackSearch.ColumnsAreStarts | crates/lmux/src/pane.rs:1353-1381 | where lower-casing keeps the width of each character, as on ASCII text, the search never aborts and the columns are the positions of the greedy occurrences |
| ScrollbackSearch.GreedyIsPacking | crates/lmux/src/pane.rs:1361-1379 | the greedy starts are occurrences, in order and disjoint |
| ScrollbackSearch.GreedyLeavesNoGap | crates/lmux/src/pane.rs:1361-1379 | every occurrence starts inside one that was found |
| ScrollbackSearch.GreedyIsMaximum | crates/lmux/src/pane.rs:1361-1379 | no set of disjoint occurrences is larger |
| ScrollbackSearch.TextOrderedIff | crates/lmux/src/pane.rs:1301-1303 | the order keys of all matches strictly increase exactly when no line has two matches at or behind the largest column |
| ScrollbackSearch.MatchesSpanOccurrences | crates/lmux/src/pane.rs:1289-1381 | the matches of a text are one for each occurrence, line by line and from left to right, and each covers, in its line's row, from the occurrence's column as many columns as the query has characters, as far as 16 bits can tell |
| ScrollbackSearch.SearchState.Refresh | crates/lmux/src/pane.rs:1087-1109 | the active match is kept exactly if it is still among the matches |
| ScrollbackSearch.SearchState.SelectAdjacent | crates/lmux/src/pane.rs:1128-1181 | which match becomes active, and that nothing changes when there is none |
| ScrollbackSearch.ForwardIsNext | crates/lmux/src/pane.rs:1128-1181 | a forward step goes to the first match after the active one; without one, to the first in or below the viewport, else the very first; it goes nowhere exactly if no match is after the active one |
| ScrollbackSearch.BackwardIsPrevious | crates/lmux/src/pane.rs:1128-1181 | a backward step goes to the last match before the active one; without one, to the last in or above the viewport, else the very last; it goes nowhere exactly if no match is before the active one |
| ScrollbackSearch.StepsAreInverse | crates/lmux/src/pane.rs:1128-1181 | a forward step goes to the very next match or stops at the last, and a backward step undoes it |
| ScrollbackSearch.WalkVisitsAllIff | crates/lmux/src/pane.rs:1128-1181 | stepping forward from the first match visits every match once, in order, exactly when the keys strictly increase |
| AgentGrants.AgentControl.RegisterGrantRequest | crates/lmux/src/agent_control.rs:128-140 | the record is pending under its id, whatever was there |
| AgentGrants.AgentControl.DecideGrant | crates/lmux/src/agent_control.rs:142-159 | a decision changes that record's state alone; an unknown id is an error |
| AgentGrants.AgentControl.AuthorizePaneAccess | crates/lmux/src/agent_control.rs:162-220 | for whichever matching record the map yields, result and new records are those of the transition, which `FreeAccessIsLetIn`, `UnknownAccessIsFiled`, `AnswerOfDecision` and `AnswerOfPending` say case by case |
| AgentGrants.AgentControl.ExistingGrantDecision | crates/lmux/src/agent_control.rs:248-288 | the record found is consulted, and a one-time permission used up |
| AgentGrants.OrderFreeIff | crates/lmux/src/agent_control.rs:257-288 | a decision is independent of map order exactly when at most one record matches or all that match are unexpired timed permissions |
| AgentGrants.LookupIsUnambiguous | crates/lmux/src/agent_control.rs:185-216 | with fixed anchors and records made only by authorization, no access in any run matches two records |
| AgentGrants.RegistrationKeepsIff | crates/lmux/src/agent_control.rs:128-140 | a request registered directly keeps all lookups independent of map order, under any later decisions, exactly when no other record answers for a pane that it answers for |
| AgentGrants.OneAnswerIff | crates/lmux/src/agent_control.rs:257-288 | lookups are independent of map order under any decisions on the records exactly when no access matches two records |
| AgentGrants.HandRegistrationDependsOnOrder | crates/lmux/src/agent_control.rs:257-268 | two such records under which the same access is let in or refused depending on map order |
| AgentGrants.SourceIsOrderFreeIff | crates/lmux/src/agent_control.rs:237-246 | an agent's own anchor is independent of map order exactly when all its owned panes have one owner |
| AgentGrants.DecisionOrderFreeIff | crates/lmux/src/agent_control.rs:162-220 | a whole decision, answer and records, is independent of both map orders exactly when no grant is needed whatever the source; or the target is in none of the agent's anchors, the matches are at most one or all unexpired timed, and with no match the sources have one id; or it is in one of several anchors, there is a match, and all are unexpired timed |
| AgentGrants.TwoAnchorsDependOnOrder | crates/lmux/src/agent_control.rs:185-190 | an agent with panes under two anchors, reaching for a pane under one of them, is let in or told to ask depending on map order |
| AgentGrants.SettledDecisionsAreOrderFree | crates/lmux/src/agent_control.rs:162-220 | in every run with fixed anchors and records made only by authorization, whole decisions are independent of map order for an agent with one owner, or with owners of one id away from the target |
| AgentGrants.OneTimeConservation | crates/lmux/src/agent_control.rs:193-203 | in every run, accesses let in through one-time permissions of a grant, plus one still open, never exceed the one-time decisions made on it |
| AgentGrants.SuccessIsJustifiedIff | crates/lmux/src/agent_control.rs:142-203 | in every run, in any map order, an access is let in exactly when it is free or the record found goes back to a decision that allows it now, made on a request that is for the access, with no later decision, registration or use of that record |
| AgentGrants.FreeAccessIsLetIn | crates/lmux/src/agent_control.rs:175-190 | without an agent, in the agent's own pane, or with its anchor, as found, owning the target, every possible authorization succeeds and leaves the records alone |
| AgentGrants.UnknownAccessIsFiled | crates/lmux/src/agent_control.rs:162-220 | any other access that no record is for is told to ask under the new id, and exactly its request, with its pane, anchors and reason, is filed under that id as pending |
| AgentGrants.AnswerOfDecision | crates/lmux/src/agent_control.rs:142-288 | in every run, what an access gets through a record last touched by a decision: yes once, yes until the time given and then that it expired, that it was denied, or that it was revoked; only a one-time yes changes the record, to revoked |
| AgentGrants.AnswerOfPending | crates/lmux/src/agent_control.rs:248-288 | in every run, an access through a record nothing has been decided on is told that it is pending |
| AgentGrants.DecisionStands | crates/lmux/src/agent_control.rs:142-159 | a decision stands, for the very request it was made on, until the record is touched again |
| PaneLayout.Tree.ReplaceLeaf | crates/lmux/src/layout.rs:82-87 | done exactly when the leaf occurs |
| PaneLayout.Tree.RemoveLeaf | crates/lmux/src/layout.rs:92-97 | done exactly when the leaf occurs below the root |
| PaneLayout.Tree.Reparent | crates/lmux/src/layout.rs:105-137 | succeeds exactly when the panes differ and both occur, changes nothing otherwise, and never needs its rollback |
| PaneLayout.ReparentOrder | crates/lmux/src/layout.rs:105-137 | with unique ids the new leaf order is the old one without the source, which now stands directly before (top, left) or after (bottom, right) the target |
| PaneLayout.ReparentShape | crates/lmux/src/layout.rs:105-137 | with unique ids, after a move the source and the target are the halves of one even split, one above the other for top and bottom, side by side for left and right; any two other panes stay in the split, direction and ratio included, that parted them, with the same other panes on its two sides; the source is parted from every third pane where the target is |
| PaneLayout.PrunedParting | crates/lmux/src/layout.rs:162-186 | taking a pane away leaves all others in their splits |
| PaneLayout.ReparentConserves | crates/lmux/src/layout.rs:105-137 | a move keeps all panes, duplicates included |
| PaneLayout.PrunedLeaves | crates/lmux/src/layout.rs:162-186 | a removal takes exactly one occurrence out of the leaf order |
| PaneLayout.ReplacedLeaves | crates/lmux/src/layout.rs:140-160 | a replacement puts the new leaves where the first occurrence was |
| PaneLayout.SplitThenRemove | crates/lmux/src/layout.rs:82-97 | splitting a leaf with a new id and removing that id gives the identical tree, ratios included |
| PaneLayout.BuildRestored | crates/lmux/src/app.rs:1176-1243 | nothing is restored exactly when no leaf comes back; otherwise the tree is the snapshot cut down to the survivors at once, with anchors, focus and next id as computed from it |
| PaneLayout.PruneGhosts | crates/lmux/src/app.rs:1213-1218 | for any tree, duplicates included, and any non-empty survivors among its leaves, removing the others one by one gives the tree cut down to the survivors at once: they stay in order, and a split stays, direction and ratio included, where both halves keep one |
| PaneLayout.PrunedRestricted | crates/lmux/src/layout.rs:162-186 | removing a leaf that does not come back, wherever it stands, leaves what the tree is cut down to |
| PaneLayout.GhostRemoved | crates/lmux/src/app.rs:1210-1218 | each removal of the loop finds its leaf, below the root, so the no-op on the root is never met |
| PaneLayout.RestoredIsConsistent | crates/lmux/src/app.rs:1222-1234 | focus and anchors are in the tree, and the next id is above every leaf exactly when no leaf is the largest 32-bit number |
| PaneLayout.LargestLeafWraps | crates/lmux/src/app.rs:1234-1234 | a tree whose largest leaf makes the next id 0 |
| BusCodec.Stream.ReadFrame | crates/lmux-bus/src/codec.rs:17-37 | takes a body exactly when the stream starts with a frame for it, and nothing beyond; otherwise end of stream or frame too large |
| BusCodec.Stream.WriteFrame | crates/lmux-bus/src/codec.rs:42-58 | writes the frame, or nothing if the body is above 4 MiB |
| BusCodec.BigEndianBothWays | crates/lmux-bus/src/codec.rs:26-53 | the length header decodes to a number exactly if it encodes it |
| BusCodec.ReadInvertsWrite | crates/lmux-bus/src/codec.rs:17-58 | a read yields a body and a rest exactly when the bytes are a written frame for it, within the limit, and that rest |
| BusCodec.CutFrameIsEof | crates/lmux-bus/src/codec.rs:17-37 | a frame cut short anywhere reads as end of stream, never as a frame |
| BusCodec.ListRoundTrip | crates/lmux-bus/src/codec.rs:17-58 | any list of bodies within the limit reads back as that list and leaves exactly what follows |
| BusCodec.StreamIsFrames | crates/lmux-bus/src/codec.rs:17-37 | every byte stream is a list of written frames followed by bytes that start with none |
| BusConversation.ServeConnection | crates/lmux-bus/src/server.rs:164-268 | for any bytes: a denied peer gets one denial and no service; else the frames get the replies owed to them in order until the stream ends or one cannot be answered, with exactly the handler calls of the frames read, and the error reported accordingly |
| BusConversation.AnswerFrame | crates/lmux-bus/src/server.rs:190-266 | one frame: the reply owed is sent if it can be, the handler is called exactly for requests after a hello, and the context becomes the latest hello's; a body that contradicts itself on being a hello, before any, ends the connection; what the replies say is in the rows on refusals and on what a client gets |
| BusConversation.NoEnvelopeIsRefused | crates/lmux-bus/src/server.rs:190-202 | a body without an envelope of this version is refused under the nil id, as a version mismatch if it decodes and else as a bad request with the decoder's words |
| BusConversation.NoHelloIsRefused | crates/lmux-bus/src/server.rs:204-213 | a first envelope that is no hello is refused as a bad request naming its kind and its id |
| BusConversation.UnknownKindIsRefused | crates/lmux-bus/src/server.rs:215-228 | an envelope whose kind does not decode is refused as an unknown kind, naming it and its id, with the decoder's words |
| BusConversation.WriteResponse | crates/lmux-bus/src/server.rs:270-283 | the reply with its id is framed, or nothing written and an error returned if it is too large |
| BusConversation.AnsweredIff | crates/lmux-bus/src/server.rs:183-266 | a connection falls silent at, and only at, the first frame whose reply is above the frame limit or that contradicts itself before any hello |
| BusConversation.OnlySizeStopsReplies | crates/lmux-bus/src/server.rs:241-249 | as long as both decodings of a body see the same tag, only the size of a reply can stop it |
| BusConversation.OneReplyPerFrame | crates/lmux-bus/src/server.rs:183-266 | reading back what was sent gives one envelope per answered frame, in order, with that frame's id, nil where it had no envelope |
| BusConversation.RepliesToPrefix | crates/lmux-bus/src/server.rs:183-266 | the answers so far never depend on later frames |
| BusConversation.LatestHelloIff | crates/lmux-bus/src/server.rs:233-238 | the context in force is that of the last hello read, once a frame tagged and decoded as hello has opened the conversation |
| BusConversation.CallsAreGated | crates/lmux-bus/src/server.rs:204-249 | the handler runs, in order, only for parsable requests after a well-formed hello, and always sees the latest hello's context |
| BusConversation.RequestsReachHandler | crates/lmux-bus/src/server.rs:242-249 | and it runs for each of those |
| BusConversation.ParseEnvelope | crates/lmux-bus/src/envelope.rs:38-48 | exactly bodies that decode with this protocol version are accepted; others are a version mismatch if they decode and a bad request if not |
| BusClients.Client.Request | crates/lmux-bus/src/client.rs:57-75 | what is written, and what the client makes of the next bytes |
| BusClients.Client.Connect | crates/lmux-bus/src/client.rs:29-46 | a client exists exactly if hello is answered by an acknowledgement, with that version |
| BusClients.AnswersMatchRequests | crates/lmux-bus/src/client.rs:57-75 | against the cockpit, the id check of every answered request passes, and its answer is what the cockpit owed it, with later answers left unread |
| BusClients.WhatRequestReturns | crates/lmux-bus/src/server.rs:230-265 | a request returns the handler's own answer to it under the hello in force, an acknowledgement with the cockpit's version for a hello, or a bad-request error before any hello |
| BusClients.HandlerSuccessIsReturned | crates/lmux-bus/src/server.rs:230-266 | what the handler answers, when it is no error, is what the client gets |
| BusClients.HandlerFailureIsReturned | crates/lmux-bus/src/server.rs:250-263 | a refusal by the handler reaches the client as an error reply with its code, its own message at the end and the request's id; the client gets a failure, of the same code exactly when that code survives the client's reading |
| BusClients.SilenceIsEofIff | crates/lmux-bus/src/client.rs:57-63 | a client whose earlier requests were answered gets the end of the stream exactly when the reply to this one is too large, and there the answers stop |
| BusClients.RequestIsCarriedOut | crates/lmux-bus/src/server.rs:241-249 | answered or not, a request after a hello is carried out, under the hello in force |
| BusClients.IdCheckIff | crates/lmux-bus/src/client.rs:62-69 | the first id check fails exactly for a denied peer |
| BusExamples.OversizedReply | crates/lmux-bus/src/server.rs:183-266 | a conversation whose second request is carried out and told of the end of the stream |
| BusExamples.ForeignPeer | crates/lmux-bus/src/client.rs:62-69 | a conversation in which a client of another user is told of an id mismatch |
| BusExamples.PlainWireRoundTrips | crates/lmux-bus/src/server.rs:270-283 | what the other lemmas assume of JSON can be had: an encoding that both decoders invert |

## Left out

- Surface ids: the 64-bit id counter of the compositor host is unbounded here.
- Surface events: sends on the event channel always succeed; seat, pointer, keyboard, focus and configure traffic is not modelled.
- Frames from GPU buffers: file descriptors, formats and modifiers are one opaque value; only their zero-size check is kept.
- Window operations: timing, logging and error texts; the sender is the single one whose sequences strictly increase, and the enqueue never fails.
- Memory order of the shared sequence: loads may return any value between the last one seen and the current one, never an older one.
- Session store: real file-system errors, permissions and crash durability; the payload of a session beyond its name and time is opaque.
- Session files read as the index: a well-formed session file decodes as an index without entries, which is how the derived decoder treats unknown and missing fields.
- Transcript: splitting output into lines, lossy decoding, and the clock.
- Byte search: UTF-8 occurrences only begin between characters, so the search of the lower-case form is on characters; row numbers above 32 bits.
- Scrollback viewport: scrolling a match into view and drawing highlights; a change of text between two steps is any other list of matches.
- AgentGrants.AgentControl.AuthorizePaneAccess: the texts of errors, and the per-anchor counts and views shown to users.
- Random ids: a request id or a grant id is a parameter; grants do not assume it to be new.
- PaneLayout.Tree.Reparent: nodes are values below one mutable root, so aliasing of subtrees while they are rewritten is not captured; ratios are real numbers that are only copied.
- PaneLayout.BuildRestored: resolving a recorded directory and measuring cells.
- BusCodec.Stream.ReadFrame: bytes that arrive in pieces are the sequence of all of them; a read error other than the end of the stream does not occur.
- BusConversation.ServeConnection: writes to the socket fail only for size; kinds other than hello, its acknowledgement and error are opaque, and encoding a kind always gives an object.
- JSON: a pair of decoders and an encoder, which the decoders invert where a lemma says so.
- Accepting connections, reclaiming a stale socket, peer credentials beyond comparing the user id, shutdown.
- User interface, keymaps, configuration, command line, process spawning, the macOS and KWin backends, and everything inside the terminal library and the Wayland toolkit.
