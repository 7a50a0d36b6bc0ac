# Models of hngh's stateful cores

Each module below models one algorithm of the repository and proves what it is there for: a Lisp paren scanner
and repairer, the operator-item ledgers, the supervision machine, the session graph, the two dependency planners
of the schedule tab, the sidebar's list reconciliation, the candidate-evidence gate with its result cache, and the
persisted rewriters and feeders (CSS splice and drift clamp, queue pointer, seen window, feedback drain, probe
eras). Code that changes state step by step is a method or a class whose contract ties the new state to a
specification function; the theorems are lemmas about that function, over all inputs and all runs.

| file | what it models |
|---|---|
| `TextFiles.dfy` | Python's newline translation when a file is read as text |
| `LintParens.dfy`, `LintTokens.dfy`, `ParenEdits.dfy`, `LintRepair.dfy` | `scan`, `fix_text`, `check` of scripts/lint-parens.py: the scanner as an automaton, what its tokens are, the least number of edits, and when the repair survives being read again |
| `LedgerProtocol.dfy` | the operator-item handlers of automation/dashboard-server.py as interleaved steps |
| `Supervision.dfy`, `SupervisionTick.dfy` | one session's evidence machine, and `tick`/`save_state` over all sessions |
| `SessionClosure.dfy`, `SessionGraph.dfy`, `Naming.dfy`, `TextOrder.dfy` | `_read_sessions` and `_emit_sessions` of automation/jobs/graph-data.py |
| `FunctionalGraph.dfy`, `GanttPlan.dfy`, `TopoOrder.dfy` | depth-first visits of "waits for" links that may form cycles; `computePlan` and `topoOneoff` |
| `StableSort.dfy`, `Sidebar.dfy` | `renderSidebar` over a DOM child list |
| `Framing.dfy`, `CandidateEvidence.dfy` | the digest's framing, the white-space scan, manifest validation and the cached test result of scripts/verify-candidate.py |
| `CssRules.dfy`, `DriftClamp.dfy` | `rules` and the splice, and the numeric path, of automation/jobs/feedback-apply.py |
| `QueuePointer.dfy` | scripts/queue_pointer.py over lines |
| `SeenWindow.dfy` | ranking, window and picks of automation/jobs/gdelt-news.py |
| `FeedbackDrain.dfy` | the capped drain of automation/jobs/feedback-ingest.py |
| `ProbeEras.dfy` | streaks, eras and arc filing of automation/jobs/dashboard-introspect.py |

What the models take from outside appears as parameters: the outcome of filing a row, of `make test`, of git, of a
file read or write; the clock; the SHA-256 digest; `str.isalnum` and `str.strip`. Writing a temporary file and
renaming it over the target is one step. Text is a sequence of characters; UTF-8 is taken to be injective. Reals
stand for the floats of Python and JavaScript.

Where the code differs from what is said about it, the model follows the code:

- automation/dashboard/gantt.js:137 says a cycle is pinned to now. The pin is overwritten when the recursion
  unwinds (line 144): the flagged lane starts after one full turn of its cycle
  (`GanttPlan.FlaggedLaneStartsAfterOneTurn`).
- scripts/verify-candidate.py:143-150 says the cache key holds the tracked working-tree state. The rows meant to
  carry it are always filtered out (`CandidateEvidence.MarkerIgnoresTheTree`), so a cached pass says nothing of
  the rest of the tree (`CandidateEvidence.CachedPassIgnoresTheTree`).
- scripts/lint-parens.py:122-123 calls its repair scanner-proven. Deleting a stray can join `#` to `|` or `\`, and
  a closer can land in a comment; `check` reads the result again and refuses it. `LintRepair.RepairScansCleanIff` says
  exactly when the result is clean; `LintRepair.FusionExample` and `LintRepair.CommentEndExample` are inputs where it
  is not.
- scripts/lint-parens.py:138 reads with newline translation and line 153 writes without undoing it: a fixed file loses
  its carriage returns (`LintRepair.CrlfExample`), and differs by parentheses only exactly when it had none
  (`LintRepair.WriteTouchesOnlyParensIff`).
- automation/dashboard-server.py reads and replaces ledgers without a lock. The row still precedes the ledger
  entry, but two overlapping requests can lose an entry and file its row twice (`LedgerProtocol.RacesLoseEntries`).
  Lines 1769, 1834, 1879 and 1975 take an unreadable ledger for an empty one: the request that reads it so wipes every
  other entry, with no overlap at all (`LedgerProtocol.UnreadableLedgerLosesEntries`; exactly when:
  `LedgerProtocol.ServedKeepsEntriesIff`). Without overlap a row can still be filed twice, when a refused filing added
  its row or a request dies after its row (`LedgerProtocol.DeathFilesTwice`; exactly when: `LedgerProtocol.OneRowIff`).
- scripts/queue_pointer.py:95-98 drops the first line that opens a bold bullet, which is not the pointer when a
  malformed bullet precedes it (`QueuePointer.DropsThePointerIff`, `QueuePointer.BrokenBulletIsDroppedInstead`). A
  queued row with a blank id hides the rows behind it, until it is dropped with the pointer it stands under
  (`QueuePointer.DroppedRowUncoversTheNext`).
- automation/jobs/feedback-ingest.py:104-111 skips what is not JSON, but a capture whose standardizing, digest or
  hand-over to the filer raises (lines 112-122: JSON that is no object, a text with a lone surrogate, an element with
  a NUL) ends the tick, and what stands behind it is never reached (`FeedbackDrain.DrainSettles`,
  `FeedbackDrain.DrainLeavesTheBlocked`). A truncated digest shared by two texts of a tick loses the second
  (`FeedbackDrain.CollisionLosesText`), and nothing else does (`FeedbackDrain.AllTextsFiledIff`).
- automation/jobs/gdelt-news.py:320-331 forgets every row behind one malformed epoch
  (`SeenWindow.BadEpochForgets`), and past 5000 rows the oldest live ones (`SeenWindow.RowLimitForgets`). A run that
  cannot write the state publishes all the same, and the next run publishes the same URLs
  (`SeenWindow.FailedWriteRepeats`).
- automation/jobs/dashboard-introspect.py:276 says that losing the state only files one deduplicated arc again. It also
  loses the pacing clock and the run's observations: the next run can file new arcs within the gap
  (`ProbeEras.LostStateFilesAgain`).
- automation/jobs/agent-supervision.py:683-684 swallows a failed state write: the rows of that tick stay filed and the
  memories stay those of the tick before (`SupervisionTick.Supervisor.Tick`), so a steer can be filed again.

## Model

| member | source | states |
|---|---|---|
| `LintParens.Scan` | scripts/lint-parens.py:24-118 | the index-driven scanner reports exactly the strays, open depth and open block comment that a character-at-a-time automaton finds, and offers a fix exactly when no block comment is open |
| `LintParens.SkipString` | scripts/lint-parens.py:49-61 | the string loop, escapes included, leaves depth and strays alone and comes out where the automaton is between tokens |
| `LintParens.SkipBlock` | scripts/lint-parens.py:63-79 | the nested block-comment loop ends at code level when it closes, and at the end of the text inside a comment when it does not |
| `LintParens.SkipCharLiteral` | scripts/lint-parens.py:81-88 | a character literal hides its character from the depth counter, with the whole alphanumeric name behind it |
| `LintTokens.StringStaysOpen` | scripts/lint-parens.py:49-61 | from code level, a string stays open as long as every quote in it has an odd number of backslashes right before it, and nothing in it counts |
| `LintTokens.StringEnds` | scripts/lint-parens.py:49-61 | it ends at the first quote with an even number of backslashes right before it, at code level with depth and strays as before |
| `LintTokens.EscapedQuoteExample` | scripts/lint-parens.py:49-61 | a closer behind an escaped quote, inside the string, is no stray |
| `LintTokens.LineCommentToken` | scripts/lint-parens.py:44-47 | a line comment hides everything up to its newline, which ends it |
| `LintTokens.BlockCommentToken` | scripts/lint-parens.py:63-79 | a block comment hides the characters and the whole comments in it, stays open behind them, and is closed by the bar and hash of its own level |
| `LintTokens.NestedCommentExample` | scripts/lint-parens.py:63-79 | closers inside a comment and inside one nested in it are no strays, the one behind both is |
| `LintTokens.CharLiteralToken` | scripts/lint-parens.py:81-88 | a character literal hides its one character |
| `LintTokens.CharNameToken` | scripts/lint-parens.py:81-88 | a named one hides the whole alphanumeric name |
| `LintParens.CleanMeansNoProblem` | scripts/lint-parens.py:103-118 | no problem is reported if and only if there are no strays, no open form and no open block comment |
| `ParenEdits.TallyCountsParens` | scripts/lint-parens.py:90-99 | the scanner's depth and strays are those of the text's code-level parentheses alone |
| `ParenEdits.CostZeroIffBalanced` | scripts/lint-parens.py:90-118 | the counter finds nothing exactly on sequences whose every prefix closes no more than it opens and whose total is even |
| `ParenEdits.NoShorterRepair` | scripts/lint-parens.py:90-118 | no sequence of single-parenthesis insertions and deletions shorter than strays + depth balances the text |
| `ParenEdits.SomeRepair` | scripts/lint-parens.py:108-118 | that many edits do, by deletions and added closers only |
| `ParenEdits.FixIsMinimal` | scripts/lint-parens.py:108-118 | the offered fix makes exactly the least number of edits |
| `ParenEdits.CleanIffBalanced` | scripts/lint-parens.py:24-118 | a text is clean if and only if its code-level parentheses balance and no block comment is open |
| `LintRepair.StraysAre` | scripts/lint-parens.py:93-99 | every reported stray is a code-level `)` met at depth zero |
| `LintRepair.RepairShape` | scripts/lint-parens.py:121-133 | every stray precedes the insertion point, so appending first does not disturb the removal: the result is the kept text, the closers and the trailing newlines |
| `LintRepair.KeptTracks` | scripts/lint-parens.py:129-133 | unless a deletion fuses two characters, the text without its strays is read token for token as before |
| `LintRepair.RemovalKeepsTokensIff` | scripts/lint-parens.py:129-133 | deleting the strays keeps every other character's reading if and only if no deleted run joins a code-level `#` to a bar or backslash |
| `LintRepair.RepairScansCleanIff` | scripts/lint-parens.py:121-153 | for every fixable text, the repaired text scans clean if and only if the text without its strays, read on its own, has no strays, ends outside block comments, and has as many open forms as its end lets the appended closers close: all at code level, none in a line comment or a string, one less after a bare `#\` |
| `LintRepair.UnfusedScansCleanIff` | scripts/lint-parens.py:121-153 | when no deletion fuses two characters, that is if and only if nothing had to be appended or the text ends at code level |
| `LintRepair.OpenFusionIsRefused` | scripts/lint-parens.py:145-153 | when the first fusion joins `#` to a bar and no closing bar-hash follows in the repaired text, the repair does not scan clean, so it is not written |
| `LintRepair.Check` | scripts/lint-parens.py:136-173 | on every file content, what is written back scans clean and differs from the text as read only by deleted strays and added closers, and from the file itself by no more exactly when it holds no carriage return; a file is written exactly when there is something to fix and its repair scans clean |
| `LintRepair.WriteTouchesOnlyParensIff` | scripts/lint-parens.py:138-153 | the text written back differs from the file by parentheses only if and only if the file holds no carriage return |
| `LintRepair.CrlfExample` | scripts/lint-parens.py:138-153 | an open parenthesis before a carriage return and a newline is written back without the carriage return |
| `TextFiles.ReadAsItStandsIff` | scripts/lint-parens.py:138 | reading a file as text gives its content unchanged if and only if it holds no carriage return |
| `LintRepair.RepairIsIdempotent` | scripts/lint-parens.py:145-165 | over whatever a first fix run leaves in a file, written or not, carriage returns or not, a second one writes nothing and gives the same verdict |
| `LintRepair.FusionExample` | scripts/lint-parens.py:129-133 | the repair of `#)` followed by a bar opens a comment |
| `LintRepair.CommentEndExample` | scripts/lint-parens.py:124-128 | a closer appended behind a line comment closes nothing |
| `LedgerProtocol.RunKeeps` | automation/dashboard-server.py:1761-1781 | every interleaving of any requests, with reads and filings failing at will, keeps a report row and a handoff line for every ledger entry, and never removes either |
| `LedgerProtocol.RowBeforeLedger` | automation/dashboard-server.py:1812-1849 | an id that was in a ledger at any moment of a run had its row by then |
| `LedgerProtocol.NoDunderId` | automation/dashboard-server.py:1783-1810 | no id with two leading underscores reaches a ledger in any run |
| `LedgerProtocol.EntriesArePosted` | automation/dashboard-server.py:1812-1849 | under every interleaving what is in the dismissed ledger was posted with dismiss, park, expire or suppress, what is in the approved one with acknowledge, handle or the desk's approval |
| `LedgerProtocol.RowOfItsVerbs` | automation/dashboard-server.py:1812-1849 | and it has by then a row with one of those verbs |
| `LedgerProtocol.TurnedAwayIff` | automation/dashboard-server.py:1783-1810 | a request is turned away exactly for an id that is empty, longer than 80, holds other characters than letters, digits, dots, underscores and hyphens or starts with two underscores, for a note longer than 200, and for a park without one; the desk's own id is fixed |
| `LedgerProtocol.DueReplaced` | automation/dashboard-server.py:1871-1891 | when requests of a side do not overlap, replacing the ledger settles the writer's debt and no other: an id is in the ledger or owed by a request after it exactly as before |
| `LedgerProtocol.OrderlyLedgersGrow` | automation/dashboard-server.py:1812-1849 | in runs where requests of a side do not overlap and ledgers can be read, the ledgers only grow, however filings end and wherever requests die |
| `LedgerProtocol.ServedKeepsEntriesIff` | automation/dashboard-server.py:1871-1891 | one request on its own keeps every id of its ledger if and only if it could read the ledger, was turned away by its id, had its filing refused, or the ledger held no other id |
| `LedgerProtocol.UnreadableLedgerLosesEntries` | automation/dashboard-server.py:1761-1781 | at this input of two requests, one after the other, the second reads no ledger and the first id is gone |
| `LedgerProtocol.ExactRows` | automation/dashboard-server.py:1871-1925 | in runs without overlap and with readable ledgers, however filings end and wherever requests die, the rows of an id on a side are one if it is in the ledger or owed by a request under way, plus one for each row that spilt: a refused filing that added its row, or a death with the row filed and the id not in the ledger |
| `LedgerProtocol.OneRowIff` | automation/dashboard-server.py:1871-1925 | in such runs an id in a ledger has exactly one row, however often it is posted, if and only if none of its rows spilt; an id in no ledger then has none once no request is busy |
| `LedgerProtocol.DeathFilesTwice` | automation/dashboard-server.py:1761-1781 | at this input, without any overlap, a dismissal that dies with its row filed and is posted again leaves two rows for one entry |
| `LedgerProtocol.Server.ReportRow` | automation/dashboard-server.py:1893-1925 | a filing that is reported as done added its row; a refused one may have added it |
| `LedgerProtocol.Server.Settle` | automation/dashboard-server.py:1812-1849 | a request served alone leaves the files as its steps leave them when run in one piece; dismiss, park, expire and suppress never touch the approved ledger and with 201 the id is in the dismissed one with the time, acknowledge, handle and the desk the other way round; with 201 one handoff line is written, and one row unless the id was known; 400 and 500 leave ledgers and handoffs as they were |
| `LedgerProtocol.RacesLoseEntries` | automation/dashboard-server.py:1761-1781 | for any two ids some interleaving loses the first entry, and a later post of it files its row again |
| `Supervision.CountersAreBlocks` | automation/jobs/agent-supervision.py:744-812 | in every history the two counters are the lengths of the current silent and stuck blocks, never both positive |
| `Supervision.KindIff` | automation/jobs/agent-supervision.py:702-756 | which kind a tick is, by its observation alone: evicted after six hours without a tool call unless a bridge run, then exited, then stuck by a signature however long silent, then missed after ten minutes' silence, then slow-valid after twenty minutes without a tool call, else live |
| `Supervision.StuckBeforeSilent` | automation/jobs/agent-supervision.py:747-752 | a looping session silent for 700 seconds is stuck |
| `Supervision.RowsAreLocal` | automation/jobs/agent-supervision.py:702-812 | what a tick files is determined by its kind and the event just before it |
| `Supervision.BlockSteersOnceThenDies` | automation/jobs/agent-supervision.py:752-784 | a maximal block of n silent or stuck ticks files one steer and then n-1 deaths of that cause |
| `Supervision.DeathFollowsItsKind` | automation/jobs/agent-supervision.py:775-784 | no death follows a tick of another kind |
| `Supervision.RowsCountBlocks` | automation/jobs/agent-supervision.py:702-795 | in every history the evicted, slow-valid and steer rows count the maximal blocks of their kind |
| `Supervision.RecoveriesAreEarned` | automation/jobs/agent-supervision.py:785-803 | recovered rows never outnumber the steer and slow-valid rows before them |
| `Supervision.ForgettingSteersAgain` | automation/jobs/agent-supervision.py:673-677 | a session forgotten inside a silent block is steered twice in it |
| `SupervisionTick.ObserveKeeps` | automation/jobs/agent-supervision.py:804-812 | one session's step keeps every session's entry equal to what its own history determines, and the rows filed under every id equal to those of that history |
| `SupervisionTick.ForgetKeeps` | automation/jobs/agent-supervision.py:673-677 | so does forgetting one |
| `SupervisionTick.Judge` | automation/jobs/agent-supervision.py:702-812 | the branches give the memory and the rows of the observed kind; a stuck session is steered and queued again the first time and reported dead from the second on |
| `SupervisionTick.Supervisor.Observe` | automation/jobs/agent-supervision.py:691-812 | the step extends the history by exactly the observed kind, files its rows, those of a stuck session spelled out, touches no other entry and keeps the first-seen stamp |
| `SupervisionTick.Supervisor.Prune` | automation/jobs/agent-supervision.py:673-677 | what is saved are at most 100 entries, without those first seen longest ago, and all of them below the cap |
| `SupervisionTick.Supervisor.SaveState` | automation/jobs/agent-supervision.py:673-685 | a save that succeeds stores the pruned entries; one that fails leaves the file as it was, and with it every memory as the tick before left it |
| `SupervisionTick.Supervisor.Tick` | automation/jobs/agent-supervision.py:687-817 | saved or not, a tick files exactly the rows of the histories extended by what it saw; a failed save leaves every entry as before, otherwise each entry is as its history determines, and while at most 100 sessions are known none is forgotten |
| `SessionClosure.ReadSessions` | automation/jobs/graph-data.py:155-185 | the loop sorts every file as holder, shadow or malformed as its specification does |
| `SessionClosure.FateIff` | automation/jobs/graph-data.py:168-185 | a file is malformed if and only if it has no record or an empty id, a shadow if and only if an earlier file carries its id, and a shadow's stem is marked as a duplicate exactly when it is that id |
| `SessionClosure.EveryFileOnce` | automation/jobs/graph-data.py:155-185 | every session file has its own place: a holder's record under its id, every other file at its own index, in reading order, among the shadows or the malformed; nothing else is kept |
| `SessionClosure.FirstFileWins` | automation/jobs/graph-data.py:177-184 | an id is loaded if and only if some file carries it, and belongs to the first that does |
| `SessionClosure.Children` | automation/jobs/graph-data.py:211-215 | the index lists under each parent id exactly its children, once each |
| `SessionClosure.EmittedByDefault` | automation/jobs/graph-data.py:200-226 | the worklist terminates with exactly the least set that holds the recent sessions and is closed under parent and child links |
| `SessionClosure.EmittedIff` | automation/jobs/graph-data.py:200-226 | a loaded session is in that set if and only if parent and child links lead from it to a recent one |
| `SessionClosure.EmittedMeans` | automation/jobs/graph-data.py:200-226 | every recent session is in it, a parent and its child only together, and a session that is neither recent nor linked is not |
| `SessionClosure.AddLinks` | automation/jobs/graph-data.py:217-226 | one turn adds exactly the loaded parent and children of its session, queues whatever it adds, and adds nothing a closed set would not hold |
| `Naming.DecimalInjective` | automation/jobs/graph-data.py:286-289 | two numbers never print alike, so numbered names differ |
| `Naming.DecimalValue` | automation/jobs/graph-data.py:286-289 | a rendered number is read back as itself, in digits only and without leading zeros |
| `Naming.FreeNumber` | automation/jobs/graph-data.py:286-301 | the suffix search terminates within one step more than there are taken names, at the first free number |
| `SessionGraph.FreshShadowName` | automation/jobs/graph-data.py:281-290 | a shadow's node id is its own stem, or the first free numbered one, and is never taken |
| `SessionGraph.FreshMalformedName` | automation/jobs/graph-data.py:295-302 | a malformed file's node id is its stem, the stem with -malformed, or the first free numbered one, and is never taken |
| `SessionGraph.ShadowNameMeans` | automation/jobs/graph-data.py:281-290 | the name is not taken, and is `jcode:` and the stem, or with `#` and the least number from two on that is free |
| `SessionGraph.MalformedNameMeans` | automation/jobs/graph-data.py:295-302 | the name is not taken, and is `jcode:` and the stem, or with -malformed, or with the least number from two on behind that which is free |
| `SessionGraph.SpawnEdges` | automation/jobs/graph-data.py:243-248 | the spawns edges are exactly those from an emitted parent to an emitted child other than itself, each once |
| `SessionGraph.HubEdges` | automation/jobs/graph-data.py:250-263 | the hub edges are exactly one to each coordinator and one to each of its emitted children, each once |
| `SessionGraph.WorkEdges` | automation/jobs/graph-data.py:265-278 | the works-on edges are exactly those of emitted sessions inside the repository, each once |
| `SessionGraph.SpawnsIff` | automation/jobs/graph-data.py:243-248 | `jcode:a` spawns `jcode:b` if and only if both are emitted, differ and `a` is the parent of `b` |
| `SessionGraph.HostsIff` | automation/jobs/graph-data.py:250-263 | `swarm:a` hosts `jcode:b` if and only if both are emitted and `a` is the parent of `b` |
| `SessionGraph.CoordinatesIff` | automation/jobs/graph-data.py:250-263 | `swarm:a` coordinates `jcode:b` if and only if they are the same emitted session and it has an emitted child |
| `SessionGraph.WorksOnIff` | automation/jobs/graph-data.py:265-278 | `jcode:a` works on the kernel if and only if it is emitted and inside the repository |
| `SessionGraph.EmitSessions` | automation/jobs/graph-data.py:188-306 | for any graph so far that holds no session or swarm id, even one that repeats an id, every new node id differs from all the others, every emitted session has its session node and every coordinator its swarm node, every shadow and malformed file has a node, in sorted order under the first free name in turn, and the edges are exactly the four kinds above, none twice |
| `SessionGraph.TurnsPermute` | automation/jobs/graph-data.py:280-302 | shadowed files are named in the order of their stems and ids and malformed ones in that of their stems, each file once |
| `SessionGraph.NewIdsArePairwise` | automation/jobs/graph-data.py:188-306 | the distinctness kept by the emitter means that each new id differs from every id before it |
| `SessionGraph.EdgesAreAnchored` | automation/jobs/graph-data.py:243-278 | both ends of every edge are emitted nodes and no session spawns itself |
| `SessionGraph.EveryChildIsHosted` | automation/jobs/graph-data.py:207-226 | with the default filter every loaded child of an emitted coordinator is emitted and hosted by its hub |
| `SessionGraph.AllFilesDrawn` | automation/jobs/graph-data.py:280-306 | the placing of the files injects them into the new nodes, no two files sharing one |
| `SessionGraph.AllSessionsDraw` | automation/jobs/graph-data.py:155-306 | with all sessions asked for, every session file has a new session node of its own and there are no others: a holder under its id, the rest under the first free name for their stem |
| `FunctionalGraph.WalkIsGood` | automation/dashboard/gantt.js:135-145 | a depth-first visit follows the links without repeating a node, up to a known node, a node without link or the path it runs into |
| `FunctionalGraph.AddedLeads` | automation/dashboard/gantt.js:135-145 | when a visit runs into its own path, the node it meets and its last node lie on one cycle that every added node leads to |
| `FunctionalGraph.MarkStep` | automation/dashboard/gantt.js:137-146 | marking one node of each cycle a visit closes keeps exactly one mark per visited cycle and none off a cycle |
| `GanttPlan.PlacingKeeps` | automation/dashboard/gantt.js:135-145 | every recursive placing leaves each placed lane starting at its dependency's start plus its estimate, except across the one cut link of a cycle |
| `GanttPlan.Planner.Place` | automation/dashboard/gantt.js:135-145 | the memoised recursion terminates on every link map and leaves the maps its specification gives |
| `GanttPlan.ComputePlan` | automation/dashboard/gantt.js:130-148 | for any lanes in any order, all lanes are placed, exactly one lane of each cycle is flagged and none off a cycle, and starts cascade |
| `GanttPlan.PlanMeans` | automation/dashboard/gantt.js:129-148 | in such a plan a lane that waits for none starts at zero, any other when the lane it was given to wait for ends, a second of estimate being 1000; only the lane with the cut link, on a cycle, starts as if that lane started now |
| `GanttPlan.AcyclicLaneIsExact` | automation/dashboard/gantt.js:139-144 | a lane whose chain ends starts at the sum of the estimates along it, whatever the lane order |
| `GanttPlan.FlaggedLaneStartsAfterOneTurn` | automation/dashboard/gantt.js:137-144 | the flagged lane of a cycle starts after one full turn of it, not at now |
| `TopoOrder.Topo.Visit` | automation/dashboard/schedule-view.js:117-123 | the visit appends its trail backwards and marks what it met |
| `TopoOrder.VisitIsWalk` | automation/dashboard/schedule-view.js:117-123 | what a visit places and appends is what the depth-first walk meets |
| `TopoOrder.TopoOneoff` | automation/dashboard/schedule-view.js:114-127 | the output is a permutation of the lanes in which every lane off a cycle that waits for a listed lane stands after it, and exactly one lane of each cycle does not; the links are the lanes' own |
| `TopoOrder.LinksIff` | automation/dashboard/schedule-view.js:112-121 | a lane has a link if and only if it names a dependency, and then to that one |
| `TopoOrder.FeedOrderIsKept` | automation/dashboard/schedule-view.js:113-127 | a feed that already lists every lane after its dependency comes out in its own order |
| `StableSort.SortOrders` | automation/dashboard/sessions-view.js:323 | the sort orders by key and permutes |
| `StableSort.SortIsStable` | automation/dashboard/sessions-view.js:323 | elements of equal key keep their order |
| `StableSort.SortKeepsTies` | automation/dashboard/sessions-view.js:323 | of two elements with equal keys one stands before the other in the sorted list if and only if it did before |
| `Sidebar.InsertPlaces` | automation/dashboard/sessions-view.js:347 | inserting an element before whatever stands at its index puts it there and disturbs no other order, whether it was in the list or not |
| `Sidebar.NextPlace` | automation/dashboard/sessions-view.js:347 | one turn of the loop extends the placed prefix by one row and keeps the rest in order |
| `Sidebar.SidebarView.ElementOf` | automation/dashboard/sessions-view.js:327-345 | a known id keeps its element, a new one gets an element no one has, and the signature on record becomes the row's |
| `Sidebar.SidebarView.DropStale` | automation/dashboard/sessions-view.js:349-351 | exactly the elements of sessions that are gone leave the list and the maps |
| `Sidebar.ListSettles` | automation/dashboard/sessions-view.js:325-351 | after both loops the list is the rows' elements in order and then the nodes that were no session's, in their old order |
| `Sidebar.SidebarView.RenderSidebar` | automation/dashboard/sessions-view.js:320-354 | the child list becomes the elements of the sessions in order of their keys, ties as they came, then the foreign nodes in their old order; surviving ids keep their element, others get a new one, and the selection stands or falls to the first row |
| `Framing.FrameFiles` | scripts/verify-candidate.py:129-139 | the digest is fed path, NUL, content, NUL for every file in order, and fails exactly when a file cannot be read |
| `Framing.FrameIsInjective` | scripts/verify-candidate.py:129-139 | NUL-free candidates with the same framed bytes are the same manifest with the same contents |
| `Framing.NulsMakeFramesAmbiguous` | scripts/verify-candidate.py:129-139 | with NULs in contents two different candidates can be framed alike |
| `Framing.WhitespaceError` | scripts/verify-candidate.py:194-203 | the scan returns the first fault by line, a control character before trailing white space |
| `Framing.AcceptedIff` | scripts/verify-candidate.py:194-203 | a text passes if and only if its only control characters are tabs and line boundaries and no blank ends a line |
| `Framing.FineAtIff` | scripts/verify-candidate.py:194-203 | which characters are refused where, by their codes |
| `Framing.AcceptedTextHasNoNul` | scripts/verify-candidate.py:194-203 | a text that passes holds no NUL |
| `CandidateEvidence.ValidateEntries` | scripts/verify-candidate.py:82-111 | a manifest is accepted if and only if it is sorted, without repeats, and every path is admissible on its own; otherwise the error is that of the first bad entry |
| `CandidateEvidence.AdmissibleIff` | scripts/verify-candidate.py:82-111 | a path is fit if and only if it is relative, has no part "..", is not under .hermes, and is an existing regular file that is no symlink and that git does not ignore |
| `CandidateEvidence.ErrorMeans` | scripts/verify-candidate.py:82-111 | an error names its entry, and what it says of it is so |
| `CandidateEvidence.CutMarkerPasses` | scripts/verify-candidate.py:167-191 | a marker write cut short reads as a pass exactly when the hash and the return code are whole |
| `TextOrder.LeqIff` | scripts/verify-candidate.py:84 | one path sorts before another if and only if it begins it or has the lesser character where they first differ |
| `CandidateEvidence.MarkerIgnoresTheTree` | scripts/verify-candidate.py:142-164 | the marker's name depends on the candidate hash and the repository name only |
| `CandidateEvidence.NulSurvivesReading` | scripts/verify-candidate.py:255-264 | newline translation hides no NUL from the scan |
| `CandidateEvidence.EarlyChecks` | scripts/verify-candidate.py:294-347 | the checks refuse at the first stage that fails, and hand on the framed bytes of the manifest |
| `CandidateEvidence.ManifestIff` | scripts/verify-candidate.py:294-310 | a manifest holds if and only if it can be read, is not empty, is sorted and names only fit paths, each once |
| `CandidateEvidence.RefusalIff` | scripts/verify-candidate.py:294-347 | a run is refused at a stage when that check fails and all before it pass |
| `CandidateEvidence.PassesIff` | scripts/verify-candidate.py:349-379 | past these checks a run passes if and only if a marker says so or the tests pass |
| `CandidateEvidence.Gate.Run` | scripts/verify-candidate.py:281-379 | one run ends as its stages say and leaves the marker its specification gives |
| `CandidateEvidence.MarkersAreEarned` | scripts/verify-candidate.py:167-191 | over every run, whatever marker writes do, a marker that reads as a pass was written after a successful test of a candidate with its hash |
| `CandidateEvidence.PassedMeansTested` | scripts/verify-candidate.py:281-379 | a passed report means that this or an earlier run tested the same manifest with the same bytes with success |
| `CandidateEvidence.FailureIsNeverCached` | scripts/verify-candidate.py:351-361 | after a failed test no marker for that candidate reads as a pass |
| `CandidateEvidence.CachedPassIgnoresTheTree` | scripts/verify-candidate.py:142-191 | after one success the candidate passes whatever else changed, even where the tests would fail |
| `CssRules.Rules` | automation/jobs/feedback-apply.py:94-110 | the loop over positions finds the rules that reading character by character with a depth and a selector finds |
| `CssRules.RuleLocated` | automation/jobs/feedback-apply.py:94-110 | every rule found is a block between its own braces, balanced inside, with the selector before it |
| `CssRules.RulesApart` | automation/jobs/feedback-apply.py:94-110 | rules do not overlap and come in text order |
| `CssRules.BlockIsRuleIff` | automation/jobs/feedback-apply.py:94-110 | a balanced block behind text without an opening brace is listed if and only if that text, stripped, does not start with an at sign, and then under that text |
| `CssRules.NestedBlockExample` | automation/jobs/feedback-apply.py:94-110 | a block with one inside is one rule, up to its own brace |
| `CssRules.BraceFreeIsBlockText` | automation/jobs/feedback-apply.py:218-221 | text without braces can stand as a block |
| `CssRules.SpliceKeepsRules` | automation/jobs/feedback-apply.py:218-221 | replacing one block by balanced text and parsing again gives the same selectors, earlier rules where they were, later ones moved by the difference in length |
| `CssRules.SpliceKeepsBlocks` | automation/jobs/feedback-apply.py:218-221 | the edited rule holds the new text, every other rule its old block |
| `DriftClamp.BaselineGet` | automation/jobs/feedback-apply.py:442-450 | the first row of a property in the file decides |
| `DriftClamp.Clamp.ApplyChange` | automation/jobs/feedback-apply.py:190-212 | the numeric path records a first value, clamps at zero and applies or refuses as specified |
| `DriftClamp.StepIsTwoPixels` | automation/jobs/feedback-apply.py:190-202 | a step goes two pixels from where the block stands, else from the baseline, else from the property's default, and never below zero |
| `DriftClamp.BaselineNeverMoves` | automation/jobs/feedback-apply.py:442-461 | no later request changes a recorded baseline |
| `DriftClamp.BaselineIsFirstValue` | automation/jobs/feedback-apply.py:194-201 | the baseline of a property is where it stood when first asked for, even if that request was refused |
| `DriftClamp.DriftIsBounded` | automation/jobs/feedback-apply.py:190-212 | over all runs a value is applied if and only if the step ends within 16 of that first value; it is never negative and what is written is within half a pixel |
| `DriftClamp.UpThenDownReturns` | automation/jobs/feedback-apply.py:190-212 | a step up, read back as written, and a step down restore the shown value |
| `QueuePointer.DropBullet` | scripts/queue_pointer.py:92-107 | the flag-driven loop drops exactly the first bold bullet, its indented lines and one blank line behind them |
| `QueuePointer.ReadsBack` | scripts/queue_pointer.py:31-50 | a rewritten block is found again where it was written, no more and no less |
| `QueuePointer.Queue.EnsureCurrent` | scripts/queue_pointer.py:144-154 | the file changes exactly when the pointer is stamped and past its term, and then as the rotation specifies |
| `QueuePointer.RotationIsLocal` | scripts/queue_pointer.py:80-121 | a rotation drops one bullet with its continuation, adds its own lines at the head of the block, and leaves every other line of the file as and where it was |
| `QueuePointer.RotationReports` | scripts/queue_pointer.py:80-91 | a rotation demotes a stamped pointer past its term, and reports its id, its age and the id it advances to |
| `QueuePointer.RotationIsRecorded` | scripts/queue_pointer.py:108-121 | the block then starts with the new pointer, stamped today with the old term, if there is an id for it, and the line that names the demoted id, the day, its stamp and its age |
| `QueuePointer.DropsThePointerIff` | scripts/queue_pointer.py:92-107 | the dropped bullet is the pointer if and only if no malformed bullet precedes it |
| `QueuePointer.BrokenBulletIsDroppedInstead` | scripts/queue_pointer.py:92-107 | with one in front, the malformed bullet is dropped and the demoted pointer stays |
| `QueuePointer.AdvancedPointerStands` | scripts/queue_pointer.py:108-121 | with a queued row the new pointer is stamped today with the old term, and a later call rotates again if and only if the term has passed |
| `QueuePointer.EmptyQueueShrinks` | scripts/queue_pointer.py:116-121 | whenever there is no id to advance to, for want of a queued row or because the first one has a blank id, a rotation takes exactly one bullet out of the block |
| `QueuePointer.EmptyQueueSettles` | scripts/queue_pointer.py:144-154 | while no queued row with an id stands before a blank one that no rotation drops, a file without queued rows above all, rotation happens at most once per bullet over any sequence of days |
| `QueuePointer.DroppedRowUncoversTheNext` | scripts/queue_pointer.py:92-121 | at this input the blank row goes with the pointer it is indented under, and the next call has a row to advance to |
| `SeenWindow.RankRows` | automation/jobs/gdelt-news.py:191-217 | the loop keeps, per URL, the row its specification keeps, and sorts by falling score |
| `SeenWindow.RankingIsBest` | automation/jobs/gdelt-news.py:191-217 | the ranking lists every URL once, with the first of its highest-scoring rows, highest first |
| `SeenWindow.PicksAreFirst` | automation/jobs/gdelt-news.py:386-392 | a block holds the first 4 world and the first 2 good items, in rank order |
| `SeenWindow.PicksAreHighest` | automation/jobs/gdelt-news.py:386-392 | an item left out of its lane scores no higher than any picked one, and its lane is full |
| `SeenWindow.BlockFits` | automation/jobs/gdelt-news.py:386-392 | a block holds the first 4 world and the first 2 good items not on record, and fewer only when that is all |
| `SeenWindow.LoadSeen` | automation/jobs/gdelt-news.py:320-331 | the loop keeps the rows inside the window up to the first malformed epoch, and the set holds exactly their URLs |
| `SeenWindow.News.Run` | automation/jobs/gdelt-news.py:345-412 | one run publishes and records as specified, with nothing recorded when nothing was published |
| `SeenWindow.BlockIsBest` | automation/jobs/gdelt-news.py:378-405 | a block repeats no URL, takes only URLs not on record, each as the export's best row, and the highest of each lane |
| `SeenWindow.NoRepeatWithinADay` | automation/jobs/gdelt-news.py:320-405 | over every run: a URL published by a run that could write the state is not published again within 86399 seconds, as long as no run in between is ahead of the clock of the later one and no more than 5000 rows are ever live |
| `SeenWindow.OnRecordIff` | automation/jobs/gdelt-news.py:320-331 | a URL is on record if and only if the state has a row of it within the window with no malformed epoch before it |
| `SeenWindow.FreshIff` | automation/jobs/gdelt-news.py:379-380 | a ranked item counts as new if and only if no row of its URL from the last 86400 seconds stands before every malformed epoch |
| `SeenWindow.RecordedIff` | automation/jobs/gdelt-news.py:334-342 | what is written holds a URL if and only if one of the newest 5000 rows does |
| `SeenWindow.FailedWriteRepeats` | automation/jobs/gdelt-news.py:334-342 | at this input of two runs a second apart the first cannot write the state and both publish the URL |
| `SeenWindow.BadEpochRepeats` | automation/jobs/gdelt-news.py:320-331 | a URL recorded a second ago behind a malformed epoch is published again |
| `SeenWindow.BadEpochForgets` | automation/jobs/gdelt-news.py:320-331 | rows behind a malformed epoch are forgotten |
| `SeenWindow.RowLimitForgets` | automation/jobs/gdelt-news.py:334-342 | past the row limit the oldest live URL is no longer on record |
| `FeedbackDrain.Inbox.Tick` | automation/jobs/feedback-ingest.py:88-129 | the loop with its breaks leaves pending, processed and filed as the specification of a sweep does |
| `FeedbackDrain.SeenIsAll` | automation/jobs/feedback-ingest.py:112-121 | while a tick goes on the identities met are exactly those of the records behind it, whether their filing succeeded or not |
| `FeedbackDrain.TickLosesNothing` | automation/jobs/feedback-ingest.py:100-129 | at every point of a tick, whatever the filer does, every processed capture's identity has been filed or still has a pending capture |
| `FeedbackDrain.RunLosesNothing` | automation/jobs/feedback-ingest.py:88-129 | so it is over every run of arrivals and ticks |
| `FeedbackDrain.TextsAreKept` | automation/jobs/feedback-ingest.py:112-118 | over every run a processed text has been filed or is still pending, unless another text with its identity has arrived |
| `FeedbackDrain.AllTextsFiledIff` | automation/jobs/feedback-ingest.py:112-129 | a tick that leaves no record has filed the text of every one if and only if no two of different text share an identity |
| `FeedbackDrain.CollisionLosesText` | automation/jobs/feedback-ingest.py:113-118 | a text that shares its identity with one filed before it in the tick is moved away unfiled, even one that could not be filed at all |
| `FeedbackDrain.CapHolds` | automation/jobs/feedback-ingest.py:93-122 | a tick files at most 20 rows, no identity twice |
| `FeedbackDrain.TicksDrain` | automation/jobs/feedback-ingest.py:93-129 | with a working filer and no capture that raises, P readable records are gone after P/20 ticks, rounded up |
| `FeedbackDrain.PoisonBlocks` | automation/jobs/feedback-ingest.py:104-122 | a capture whose standardizing, digest or hand-over to the filer raises ends the tick: it and what stands behind it stay, whatever the filer does |
| `FeedbackDrain.DrainSettles` | automation/jobs/feedback-ingest.py:88-129 | for all captures, after enough ticks with a working filer every record left is or stands behind a capture that raises, and no later tick, with any filer, changes anything |
| `FeedbackDrain.DrainLeavesTheBlocked` | automation/jobs/feedback-ingest.py:88-129 | for all captures, after enough ticks for their number, the records left are exactly those from the first capture that raises on, if and only if no record in the last batch before it shares its identity and so takes it away unfiled |
| `ProbeEras.StreakAndEra` | automation/jobs/dashboard-introspect.py:358-375 | over every history the streak is the length of the current met run and the era the number of met runs that reached the retire length |
| `ProbeEras.RunsCountEras` | automation/jobs/dashboard-introspect.py:340-375 | so it is for every probe over all runs, by the observations whose state could be saved |
| `ProbeEras.RegressedIff` | automation/jobs/dashboard-introspect.py:358-375 | a regression is a probe met before the run and unmet in it |
| `ProbeEras.OrderIsPermutation` | automation/jobs/dashboard-introspect.py:289-328 | the advisory order is a permutation of the pending probes, for every answer |
| `ProbeEras.OrderFollowsScores` | automation/jobs/dashboard-introspect.py:289-328 | it ranks by falling score, a slug without one counting as zero, with ties in probe order; without an answer the order is the probes' |
| `ProbeEras.FiledExactly` | automation/jobs/dashboard-introspect.py:402-415 | filed are exactly the ids, not on file yet, of the pending probes that may be filed, once each |
| `ProbeEras.FiledIff` | automation/jobs/dashboard-introspect.py:376-415 | in a run that can write, filed are exactly the arcs, not on file yet, of the slugs that are unmet and either meet the pacing gap or were met before: a regression is filed at once, whatever the clock |
| `ProbeEras.RegressionIsFiledAtOnce` | automation/jobs/dashboard-introspect.py:401-406 | at this input a probe that was met is filed well within the gap |
| `ProbeEras.AdviceNeverChangesTheSet` | automation/jobs/dashboard-introspect.py:379-416 | for any two advisory answers the same ids are filed |
| `ProbeEras.ErasNameArcsApart` | automation/jobs/dashboard-introspect.py:408-410 | arcs of different eras of a probe have different ids |
| `ProbeEras.RunsKeepIdsDistinct` | automation/jobs/dashboard-introspect.py:390-422 | over all runs the ids on file stay distinct |
| `ProbeEras.FilingsArePaced` | automation/jobs/dashboard-introspect.py:376-422 | a run that files without a regression comes at least its gap after every earlier filing whose state could be saved |
| `ProbeEras.LostStateFilesAgain` | automation/jobs/dashboard-introspect.py:268-276 | at this input of two runs a second apart, with a gap of an hour, the first cannot save its state and both file without a regression |
| `ProbeEras.Observe` | automation/jobs/dashboard-introspect.py:356-375 | the loop over the results gives the probes, the pending slugs and the regressions of its specification |
| `ProbeEras.Introspection.Run` | automation/jobs/dashboard-introspect.py:340-422 | one run files as specified, whether or not the subjects file and the state file can be written; the probes and the pacing clock move only when the state could be saved, the clock only when rows were written |

## Left out

- Line numbers in lint messages: an escaped newline in a string and `#\` before a newline skip the count; problems carry positions instead. The exit code of lint-parens and its printing are not modelled.
- Regular expressions, Unicode and dates: CSS values, queue lines, gantt's "after" phrases and ids are seen through the predicates and records the patterns yield; days and seconds are numbers. A `set=` token that is no date is not modelled.
- LedgerProtocol.RunKeeps: assumes that the modelled handlers are the only writers of the ledgers; the mail job's writes are not part of this model. Timestamps are numbers, handoff and row texts are reduced to verb and id.
- LedgerProtocol.ExactRows: counts rows in runs without overlap and with readable ledgers; for the others `RacesLoseEntries` and `UnreadableLedgerLosesEntries` show what is lost.
- LedgerProtocol.Server.ReportRow: report-queue's own deduplication is not part of this model; a refused filing may or may not have added its row.
- SupervisionTick.Supervisor.Tick: rows are the calls of report(), which counts a repeat of an identity within 7 days on the row already there; the theorems of `Supervision` count the rows of ticks that could be saved, and those of a tick that could not come on top. An unreadable state file, which is taken for an empty one, a session whose evidence raises an exception, the last_phase and last_size fields, and the overnight checks are not modelled; the phase classifier only feeds those fields and the journal.
- SessionGraph.EmitSessions: labels, states and details, and the order of the emitted sessions, hubs and edges, are not modelled; those sets are enumerated in any order.
- SessionClosure.Children: the order of a parent's children is not modelled.
- GanttPlan.ComputePlan: the parsing of dependency phrases (automation/dashboard/gantt.js:117-126) is a map given from outside; the engine's drawing is left out.
- TopoOrder.TopoOneoff: lanes are identified by their ids.
- Sidebar.SidebarView.RenderSidebar: requires distinct session ids, as the feed gives them; elements are handles, HTML text is the row it was rendered from, and class toggles and listeners are left out. Whether a signature covers everything a row shows is not stated.
- CandidateEvidence.PassedMeansTested: assumes a collision-free digest (FIPS 180-4), no NUL in the path of an existing file, and a tree that does not change within a run.
- CandidateEvidence.EarlyChecks: the guard, dependency, public-content and link checks are booleans of the run.
- CssRules.SpliceKeepsRules: speaks of the block text put back; set_value's and get_value's substitutions inside a block, the branch that appends a new rule, and the colour path are not modelled. As a general inverse the revert command is left out: a value with several parts does not come back through set_value.
- DriftClamp.DriftIsBounded: floats are reals.
- QueuePointer.RotationIsLocal: speaks of the lines as read; carriage returns of queue.md, which a rewrite turns into newlines, are not modelled.
- QueuePointer.AdvancedPointerStands: a queued id is taken to hold no asterisk, so that its bullet reads as one.
- SeenWindow.NoRepeatWithinADay: export rows arrive parsed, with None for a row the parser skips; snapshots, categories, the rendering of a block and failed fetches, which publish nothing, are left out. URLs hold no line break: one with a break in it, which a quoted field can carry, is written as two lines and is not recognised later.
- FeedbackDrain.TickLosesNothing: "filed" means that the filer's exit code was 0. The row filer ends its report-queue call with a fallback to success (automation/lib/notify-email.sh:61-64), so an exit code of 0 may come without a row, and another one with a row that `CapHolds` does not count.
- FeedbackDrain.RunLosesNothing: "filed" as in `TickLosesNothing`; the processed directory is a list, so a later file of the same name overwriting an earlier one is not modelled; standardizing a record's text is left out.
- ProbeEras.Introspection.Run: the probes themselves, their details, the report rows and the model call are left out; an unreadable subjects file counts as an empty one only when there is none.
- HTTP, tokens and path checks, terminals, the wizard and desk probes, the remaining feeds and digest jobs, model calls and all rendering: input and output, or scans and folds that would add only easy members.
