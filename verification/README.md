# Verified models of the Loom workspace

Dafny models of the parts of the repository that keep state, parse text or spend budgets, with
proofs of what they promise. `dafny verify dfyconfig.toml` checks the whole project.

Text is a sequence of Unicode scalar values, so every position is a character boundary. Code that
changes state step by step is written as methods and classes and proved against functions that say
what the result means; protocols with several participants are state machines whose events are the
atomic steps between awaits or lock sections.

| files | what they model |
|---|---|
| `Proposal`, `GroupWorkspace*` | sharing a workspace link in a Signal group: previews, PATCHes that may be lost, late or repeated, checks, notifications, crashes, and a server that accepts only the next revision |
| `Drafts` | versioned drafts with retry-safe commands |
| `ReferenceGrammar`, `Parser`, `Spelling`, `RoundTrip`, `ParserLimits` | the reference language: its grammar, its parser with a cursor and a node counter, and the round trip of every spelling of a tree |
| `TickRuns`, `LinkDelimiters`, `DocumentNames`, `DocumentReferences`, `Participants`, `FunctionPrompt` | the Markdown-aware reference scanner with its precomputed tables, participant addresses, and the framed function prompt |
| `History`, `WalkCosts`, `BranchIndex`, `Projection`, `Snapshot` | validated histories, the walks over them, exact text projections, and durable snapshots |
| `ContextProvider`, `NativeContext`, `RunControl`, `WorkerLedger` | leases, epochs and a bounded cache under a lock; cancel and terminal claims on one atomic cell; a window over a log of joins |
| `EvidenceSelection`, `Sampling`, `ContextSelection` | selection under character and token budgets |
| `FileTree`, `Discovery` | the bounded scan for model files over a file system that may contain cycles |
| `Mentions` | mentions in prose and the edit that accepts a completion |
| `Wrappers`, `Unicode`, `Counting` | shared helpers |

The invariants are the place to start reading: `GroupWorkspaceInvariant.Inv`, `NativeContext.Inv`,
`RunControl.Inv`, `EvidenceSelection.TookTurns`, `Sampling.Sound`, `FileTree.Explored`.

One comment does not hold of its code. crates/workspace-document/src/history.rs:49-50 says that each
node is visited at most twice. The walks look at a node once for its own walk and once for each of
its children, so a message with three answers is looked at four times
(`WalkCosts.LookedAtFourTimes`, and `WalkCosts.AnsweredIsLookedAtOften` for any number of
answers). No node is looked at more than twice if and only if no two nodes name the same parent
(`WalkCosts.AtMostTwiceWithoutSiblings`). All walks together take exactly twice as many looks as
there are nodes, less one for each root (`BranchIndex.New`), so the cost stays linear as the comment says.

A completion keeps the mentions behind it if and only if no `@` with a handle follows the completed
mention directly (`Mentions.LaterMentions`). In `@a@b` the second `@` is no mention; completing the
first one adds a space, and `@b` becomes a mention that the author did not choose
(`Mentions.SpaceFreesAMention`).

## Model

| member | source | states |
|---|---|---|
| `GroupWorkspaceRuns.AcceptedPatchesInstallTheReview` | products/loom/signal/src/group_workspace.rs:191-343 | In every run, each accepted PATCH replaced exactly the `before` text its review was made against with the `after` text that extends it, at the reviewed revision of its own conversation; no two acceptances belong to one review |
| `GroupWorkspaceRuns.PatchesAreRecordedFirst` | products/loom/signal/src/group_workspace.rs:323-334 | A PATCH on the network belongs to a stored review that is no longer merely prepared, and carries the ciphertext and revision fixed at preparation |
| `GroupWorkspaceRuns.SupersededPatchIsRefused` | products/loom/signal/src/group_workspace.rs:199-218 | While a newer review exists or is being prepared, delivering any PATCH of an older one changes nothing |
| `GroupWorkspaceRuns.SupersededForever` | products/loom/signal/src/group_workspace.rs:122-125 | Once superseded, a review never becomes accepted later in the run |
| `GroupWorkspaceRuns.NotificationsAreEarned` | products/loom/signal/src/group_workspace.rs:345-398 | Each review is announced at most once, after the announcing call saw the server at or past the reviewed revision with the reviewed text; a signed change goes only with its own revision; `Sent` implies an acknowledged send |
| `GroupWorkspaceRuns.ReceiptsSurvive` | products/loom/signal/src/group_workspace.rs:113-128 | Rows are never lost, stored receipts are never taken back, and a superseded review's receipts never change |
| `GroupWorkspaceRuns.TableStaysBounded` | products/loom/signal/src/group_workspace.rs:113-128 | In every run the table keeps to 2000 rows, 8 MiB, 32 KiB a row, and no command is stored twice |
| `GroupWorkspaceSafety.StepKeeps` | products/loom/signal/src/group_workspace.rs:183-399 | Every step of every call, of other members and of the network keeps the whole invariant, including a crash or a dropped call at any await |
| `GroupWorkspaceSafety.ObserveDecides` | products/loom/signal/src/group_workspace.rs:280-293 | A read confirms a review only where the server holds its text at or past its revision, and leaves it open exactly when the server is still at the reviewed base |
| `GroupWorkspaceSafety.DeliverKeeps` | products/loom/signal/src/group_workspace.rs:326-334 | A delivered PATCH is accepted only at its own revision over its own `before`, and the invariant survives the new version |
| `GroupWorkspaceRuns.RunKeeps` | products/loom/signal/src/group_workspace.rs:183-399 | The invariant holds after every run from a state where it holds |
| `Proposal.AddsTitleAndLink` | products/loom/signal/src/group_workspace.rs:164-181 | A description that has the link stays as it is; otherwise its words are kept in place, those of the title and the link follow, and the result is within both size limits |
| `Proposal.ProposingTwiceIsStable` | products/loom/signal/src/group_workspace.rs:164-172 | A proposal that was accepted once is found again, so proposing over it changes nothing |
| `Proposal.WordsAcrossGap` | products/loom/signal/src/group_workspace.rs:166 | Splitting at white space treats the two sides of a gap independently |
| `Drafts.Store.Save` | products/loom/signal/src/drafts.rs:19-85 | A repeat of the stored command answers from the row and changes nothing; a current editor with a fresh command appends the next version exactly when it fits; anything else fails and changes nothing; the store stays within 2000 rows and 8 MiB |
| `Drafts.Store.Load` | products/loom/signal/src/drafts.rs:7-17 | The newest committed draft of the conversation, or the default at version 0 |
| `Drafts.CommitKeepsHistory` | products/loom/signal/src/drafts.rs:42-85 | Committed versions of a conversation are 1, 2, 3 and so on, one body each, and the row holds the last |
| `Drafts.AnsweredCallRepeats` | products/loom/signal/src/drafts.rs:58-62 | Sending an acknowledged call again is a repeat, however often |
| `Drafts.OvertakenCallFails` | products/loom/signal/src/drafts.rs:63-69 | A committed call that has been overtaken is neither a repeat nor current |
| `ParserLimits.SpellingsReadBack` | crates/workspace-document/src/reference_grammar.rs:65-85 | Every tree within 256 nodes, depth 16 and non-blank names, spelled with nested calls or pipes in any mixture, is parsed back to exactly itself |
| `ParserLimits.AcceptedWithinLimits` | crates/workspace-document/src/reference_grammar.rs:381-428 | Every accepted expression has at most 256 nodes, depth at most 16 and no blank name |
| `ParserLimits.EveryTreeWithinLimitsIsRead` | crates/workspace-document/src/reference_grammar.rs:65-85 | A tree whose plain spelling fits the byte limit can be produced by the parser if and only if it is within the limits |
| `ParserLimits.PipelinesAreSugar` | crates/workspace-document/src/reference_grammar.rs:430-458 | Two spellings that mean the same tree are parsed alike |
| `ParserLimits.ExpressionCounts` | crates/workspace-document/src/reference_grammar.rs:422-458 | The node counter moves by exactly the size of the tree that was read |
| `ParserLimits.KeywordNeedsArguments` | crates/workspace-document/src/reference_grammar.rs:478-482 | The keyword is taken as a prefix: an expression that starts with it fails right behind it unless a parenthesis follows |
| `ParserLimits.LongerWordIsNoFind` | crates/workspace-document/src/reference_grammar.rs:478-482 | An entry such as `=findings(@a)` fails behind the keyword, not as an unknown word |
| `ParserLimits.PlainMeansTheTree` | crates/workspace-document/src/reference_grammar.rs:24-46 | Every tree has a spelling with quoted names and nested calls that means it |
| `ReferenceGrammar.ExpressionAt` | crates/workspace-document/src/reference_grammar.rs:430-458 | A successful parse moves forward, stays inside the text and inside the node limit |
| `Parsing.ParseNeuralCommand` | crates/workspace-document/src/reference_grammar.rs:65-85 | The entry point computes the grammar's result: prompts kept as they are, errors with their offsets, trailing text and depth refused |
| `Parsing.Parser.ReadExpression` | crates/workspace-document/src/reference_grammar.rs:430-458 | The cursor and counter end where the grammar says, with its tree or its error |
| `Parsing.Parser.ReadPipes` | crates/workspace-document/src/reference_grammar.rs:434-457 | The pipe loop folds to the left, each value becoming the first argument of the next call |
| `Parsing.Parser.ReadAtom` | crates/workspace-document/src/reference_grammar.rs:460-507 | Mentions, literals, `find` and `count` are told apart as the grammar says, with their arity errors |
| `Parsing.Parser.ReadArgumentList` | crates/workspace-document/src/reference_grammar.rs:509-525 | The argument loop reads one expression a turn, one level deeper, to the closing parenthesis |
| `Parsing.Parser.ReadQuoted` | crates/workspace-document/src/reference_grammar.rs:556-592 | The quoting loop decodes escapes and refuses raw line breaks and unknown or unfinished escapes |
| `Parsing.Parser.ReadName` | crates/workspace-document/src/reference_grammar.rs:527-554 | The name loop reads the longest bare name, or a quoted name that is not blank |
| `RoundTrip.ExpressionReads` | crates/workspace-document/src/reference_grammar.rs:430-507 | Reading a written spelling yields its tree and continues with whatever pipes follow it |
| `RoundTrip.QuotedRestReads` | crates/workspace-document/src/reference_grammar.rs:556-592 | Decoding undoes the canonical escaping of any text |
| `Spelling.RenderWritten` | crates/workspace-document/src/reference_grammar.rs:460-592 | A rendering lays out its parts at the positions the parser will look for them |
| `TickRuns.LastTickRuns` | crates/workspace-document/src/reference_grammar.rs:363-379 | For each width, the table holds the start of the last whole run of backticks of that width, and nothing else |
| `TickRuns.IndexAgrees` | crates/workspace-document/src/reference_grammar.rs:363-379 | The table answers whether a run of a width lies ahead exactly as a forward search would |
| `LinkDelimiters.MatchingLinkDelimiters` | crates/workspace-document/src/reference_grammar.rs:209-236 | The two-stack pass matches every bracket and parenthesis exactly as a forward search with a depth count does, escapes included |
| `LinkDelimiters.SideCloses` | crates/workspace-document/src/reference_grammar.rs:219-231 | A closing delimiter closes the innermost one that waits and no other |
| `DocumentReferences.DocumentReferencesOf` | crates/workspace-document/src/reference_grammar.rs:91-187 | The scan from its precomputed tables computes what the plain forward searches mean, errors included |
| `DocumentReferences.RetainedDocument` | crates/workspace-document/src/reference_grammar.rs:263-281 | A well-formed link to the hexadecimal target of a document retains exactly that document |
| `DocumentNames.TargetNamesTheDocument` | crates/workspace-document/src/reference_grammar.rs:263-277 | A document is read back from its target if and only if it has a library, no control characters and fits the limit |
| `DocumentNames.TargetsOfOneDocument` | crates/workspace-document/src/reference_grammar.rs:269-274 | Two targets that name one document spell the same bytes, those of its name |
| `DocumentNames.DecodesEncoded` | crates/workspace-document/src/reference_grammar.rs:274 | Decoding undoes UTF-8 encoding for any text |
| `DocumentNames.DecodedWasEncoded` | crates/workspace-document/src/reference_grammar.rs:274 | Only well-formed UTF-8 is decoded |
| `DocumentReferences.NoSpanLeftOpen` | crates/workspace-document/src/reference_grammar.rs:134-149 | A code span that opens also closes: none is open at the end of any input |
| `DocumentReferences.StepWillClose` | crates/workspace-document/src/reference_grammar.rs:134-153 | After every step an open span still has its closing run ahead |
| `DocumentReferences.RangesInOrder` | crates/workspace-document/src/reference_grammar.rs:91-187 | Reported ranges increase, are disjoint, start as a mention or a link, lie in one line each, and number at most 256 |
| `DocumentReferences.NameStaysInLine` | crates/workspace-document/src/reference_grammar.rs:527-592 | Neither a bare nor a quoted name contains a line break |
| `DocumentReferences.TakeStep` | crates/workspace-document/src/reference_grammar.rs:131-185 | One step of the scan from the tables is one step of its meaning |
| `DocumentReferences.ReadLink` | crates/workspace-document/src/reference_grammar.rs:242-296 | A link read from the table is the link found by searching |
| `Participants.InvocationCodeRanges` | crates/workspace-document/src/references.rs:80-111 | Guarded ranges run from an opener to the first later run of its kind and width or to the end, in order, and no opener lies outside of them |
| `Participants.ParticipantReferences` | crates/workspace-document/src/references.rs:50-73 | Exactly the references that start with `@` at the start or after white space and outside guarded code, in order; a failed scan stays an error |
| `Participants.RemoveParticipantAddresses` | crates/workspace-document/src/references.rs:38-48 | The result is the source without the characters of the address spans, all others kept in order |
| `Participants.KeptAndRemoved` | crates/workspace-document/src/references.rs:38-48 | Kept and removed characters interleave back to the source |
| `Participants.ParticipantHandles` | crates/workspace-document/src/references.rs:23-32 | The lower-cased handles of exactly the addresses outside of code, each once, at its first occurrence; a failed scan stays an error |
| `FunctionPrompt.RenderBaseFunctionPrompt` | crates/workspace-document/src/references.rs:113-148 | A prompt is rendered exactly when it fits with all of its framing, and the counted bytes are the rendered ones |
| `BranchIndex.New` | crates/workspace-document/src/history.rs:27-76 | Building succeeds exactly for distinct identities, existing parents and no cycle; each error is reported for its own cause; the walks look at a node once for itself and once for each child, twice the nodes less the roots in all |
| `BranchIndex.CheckAcyclic` | crates/workspace-document/src/history.rs:49-69 | The three-mark walk answers whether the parent relation has a cycle; it never looks at a node more often than once for itself and once for each child |
| `BranchIndex.Walk` | crates/workspace-document/src/history.rs:53-65 | One walk either meets itself, which is a cycle, or ends on settled ground |
| `WalkCosts.LooksAddUp` | crates/workspace-document/src/history.rs:49-69 | All looks together are two for each node that has a parent and one for each root |
| `WalkCosts.AtMostTwiceWithoutSiblings` | crates/workspace-document/src/history.rs:49-50 | No node is looked at more than twice if and only if no two nodes name the same parent |
| `WalkCosts.AnsweredIsLookedAtOften` | crates/workspace-document/src/history.rs:49-50 | A message with any number of answers is looked at once more than there are answers |
| `WalkCosts.LookedAtFourTimes` | crates/workspace-document/src/history.rs:49-50 | A message with three answers is looked at four times |
| `BranchIndex.Path` | crates/workspace-document/src/history.rs:78-88 | The chain from a root to the head, each node once |
| `BranchIndex.LineageIsAbove` | crates/workspace-document/src/history.rs:78-88 | The path consists of exactly the head's ancestors and the head |
| `BranchIndex.Siblings` | crates/workspace-document/src/history.rs:90-98 | Exactly the nodes with the same parent, in order |
| `BranchIndex.PreferredLeaf` | crates/workspace-document/src/history.rs:100-113 | Ends at a leaf at or below the start, by a largest child at each step |
| `BranchIndex.MaxByIsMaximal` | crates/workspace-document/src/history.rs:106-109 | The child chosen is not below any other under a total preorder |
| `BranchIndex.Descendants` | crates/workspace-document/src/history.rs:115-124 | Exactly the nodes whose path contains the start, each pushed once |
| `BranchIndex.SweptExactly` | crates/workspace-document/src/history.rs:118-122 | When nothing is pending, the sweep has visited the start's descendants and no other node, each once |
| `Projection.Document.TextOf` | crates/workspace-document/src/projection.rs:187-193 | The text is the bytes of the parts one after another, as many as were counted |
| `Projection.Document.Push` | crates/workspace-document/src/projection.rs:155-183 | Appends within the part and byte budgets, or fails and changes nothing; the byte length is that of the joined text |
| `Projection.Document.PushSlice` | crates/workspace-document/src/projection.rs:128-142 | Every check precedes every change, each failure with its own cause |
| `Projection.Document.Preflight` | crates/workspace-document/src/projection.rs:202-218 | The predicted size is the size of the rendered export |
| `Projection.Document.Transcript` | crates/workspace-document/src/projection.rs:197-233 | The export is rendered exactly when it fits |
| `Snapshot.Validate` | crates/workspace-document/src/snapshot.rs:144-191 | Accepts exactly the snapshots whose structure, lineage and metadata size are in order; a refusal reports the cause of the first check that fails |
| `Snapshot.ValidateParts` | crates/workspace-document/src/snapshot.rs:168-190 | Accepts exactly sound parts that fit together; a refusal reports the first fault of the first faulty part |
| `Snapshot.OneFirstFault` | crates/workspace-document/src/snapshot.rs:170-190 | There is only one first fault, so the reported error is determined |
| `Snapshot.ValidateHistory` | crates/workspace-document/src/snapshot.rs:164-167 | Accepts exactly the histories in which a named branch exists, and tells the errors of a history apart |
| `Snapshot.Resolve` | crates/workspace-document/src/snapshot.rs:195-243 | A validated snapshot fails to resolve only through a failing callback, too few bytes or bad UTF-8; otherwise each selected part shows its own text, or the range of the bytes that the callback answered for it |
| `Snapshot.DistinctSumFits` | crates/workspace-document/src/snapshot.rs:183-189 | Distinct parts never add up to more than all of them, so the budget checked once is enough |
| `Snapshot.Select` | crates/workspace-document/src/snapshot.rs:204-214 | The selected positions are the whole sequence, or the branch to the named or the last part |
| `ContextSelection.SelectContext` | crates/workspace-document/src/context.rs:82-149 | The result is the first entry of the trimming chain that fits, within 512 measurements; mandatory input is too large only when no entry fits; the measurement limit is reported exactly when the same work without it would take more; a measuring error is one that the measurer gave for a suffix of these histories |
| `ContextSelection.Trim` | crates/workspace-document/src/context.rs:125-149 | The oldest host units go first, then the oldest source units, one at a time, up to the first entry that fits |
| `ContextSelection.PassCounts` | crates/workspace-document/src/context.rs:105-124 | A greedy pass measures each unit that it keeps and one more that it does not, if there is one |
| `ContextSelection.SuffixStart` | crates/workspace-document/src/context.rs:105-124 | The greedy suffix stays within its own budget and could not start one unit earlier |
| `ContextSelection.SuffixStartUnique` | crates/workspace-document/src/context.rs:105-124 | The measuring function alone determines the suffix |
| `RunControl.OneWinner` | crates/operation-lifecycle/src/lib.rs:61-121 | Under every interleaving one claim wins at most, one cancel at most is told it was first, the winner's flag is exact, and no claim loops more than three times, answered or not |
| `RunControl.RefusedMeansLost` | crates/operation-lifecycle/src/lib.rs:101-119 | A claim is refused only because another claim won |
| `RunControl.StepKeeps` | crates/operation-lifecycle/src/lib.rs:72-119 | Every step of every call keeps the invariant of the cell |
| `WorkerLedger.Ledger.NoteStarted` | crates/operation-lifecycle/src/lib.rs:146-148 | Refused exactly for an outstanding identity or one still in the window; differs from an unbounded ledger only for forgotten ones |
| `WorkerLedger.Ledger.NoteJoined` | crates/operation-lifecycle/src/lib.rs:150-162 | The kept history is the last entries of the log of all joins |
| `WorkerLedger.Ledger.Evict` | crates/operation-lifecycle/src/lib.rs:156-160 | Forgets the oldest entries and no more than the capacity demands |
| `WorkerLedger.Ledger.Expected` | crates/operation-lifecycle/src/lib.rs:175-177 | Unfinished identities are never evicted |
| `NativeContext.LeasesAreBounded` | crates/services/archive-friends/src/native_context.rs:77-176 | In every run the count in flight is the number of live leases and at most 2, a live lease its scope no longer names is cancelled, and the cache stays sound |
| `NativeContext.CancelAllIsFinal` | crates/services/archive-friends/src/native_context.rs:107-114 | After a cancel-all has returned, no older preparation is or becomes live and uncancelled |
| `NativeContext.DrainIsFinal` | crates/services/archive-friends/src/native_context.rs:115-146 | After a successful drain no older preparation is ever live again |
| `NativeContext.StepPublishes` | crates/services/archive-friends/src/native_context.rs:280-300 | An entry that a step adds to the cache comes from the live, uncancelled, current lease of its scope |
| `NativeContext.NothingStalePublished` | crates/services/archive-friends/src/native_context.rs:280-300 | After a cancel-all has returned, nothing from an older preparation enters the cache |
| `NativeContext.StepKeeps` | crates/services/archive-friends/src/native_context.rs:77-176 | Every step of every participant keeps the whole invariant |
| `NativeContext.EnterKeeps` | crates/services/archive-friends/src/native_context.rs:148-176 | Entering supersedes the scope's previous lease and counts the new one, even when the epoch moved after it was checked |
| `ContextProvider.EvictsFewest` | crates/services/archive-friends/src/native_context.rs:293-298 | Eviction drops the fewest oldest entries that make room |
| `ContextProvider.StoreIsSound` | crates/services/archive-friends/src/native_context.rs:292-300 | At most 8 entries, 8 MiB, one entry a key, the new one included |
| `ContextProvider.Provider.PublishLocked` | crates/services/archive-friends/src/native_context.rs:280-301 | The locked section with its eviction loop changes the state as specified |
| `ContextProvider.Provider.EnterLocked` | crates/services/archive-friends/src/native_context.rs:152-169 | The locked section of an admission changes the state as specified |
| `ContextProvider.Provider.CancelActiveLocked` | crates/services/archive-friends/src/native_context.rs:109-113 | The loop over the active preparations cancels each of them and nothing else |
| `ContextProvider.Provider.ReleaseLocked` | crates/services/archive-friends/src/native_context.rs:80-93 | Dropping a lease frees its slot and its scope only if the scope still names it |
| `Discovery.DiscoverGgufModels` | crates/desktop-model-discovery/src/discovery.rs:88-183 | Never more entries than allowed, on any file system; a clean report holds every reachable model exactly once, as the user's wherever a user root reaches it; every warning and every cut has its cause, so a tame tree gives a clean report |
| `Discovery.Scan.BoundedDirectoryChildren` | crates/desktop-model-discovery/src/discovery.rs:185-212 | Stops at the budget and reports the cut; a clean listing is complete |
| `Discovery.Scan.EnqueueRoots` | crates/desktop-model-discovery/src/discovery.rs:214-232 | Each root once, in the caller's order, as many as the budget allows; cut off exactly when there are more |
| `Discovery.DistinctInOrder` | crates/desktop-model-discovery/src/discovery.rs:221-231 | Roots are queued in the order in which they first occur |
| `Discovery.TameIsClean` | crates/desktop-model-discovery/src/discovery.rs:112-171 | With nothing unreadable, linked or too deep in reach and no more to list than allowed, nothing is cut off and nothing warned about |
| `Discovery.Scan.Inspect` | crates/desktop-model-discovery/src/discovery.rs:112-171 | One item settles: models found once, directories listed once, depth and failures reported |
| `FileTree.ExploredIsComplete` | crates/desktop-model-discovery/src/discovery.rs:88-183 | When nothing is pending, everything reachable has been seen under some name |
| `FileTree.ExploredStep` | crates/desktop-model-discovery/src/discovery.rs:112-171 | Dealing with one pending item keeps what the scan knows |
| `EvidenceSelection.Select` | crates/services/archive-friends/src/compiler.rs:101-190 | Round by round, every friend has had as many turns as rounds, in the order of the friends, each pick the best choice at its time; the selection fits, repeats no one, leaves nothing behind that could still be chosen and has the rendered length; a friend is called unrepresented only if all of their evidence is too big for what is left |
| `EvidenceSelection.PlayRound` | crates/services/archive-friends/src/compiler.rs:117-162 | One complete round asks the friends in order and gives each below the cap one more excerpt or finds them exhausted |
| `EvidenceSelection.TurnsGoOn` | crates/services/archive-friends/src/compiler.rs:117-167 | A further round extends the record of turns and leaves the earlier rounds as they were |
| `EvidenceSelection.TakeTurn` | crates/services/archive-friends/src/compiler.rs:118-161 | A turn takes the best ranked item that fits and is no repeat; what it passes over is passed over for good reason |
| `EvidenceSelection.RankedInOrder` | crates/services/archive-friends/src/compiler.rs:130-135 | The candidates of a turn come in the order of the ranking, whatever order it is |
| `EvidenceSelection.NotebookLength` | crates/services/archive-friends/src/compiler.rs:285-291 | With unique identifiers the running count equals the length of the rendered evidence |
| `EvidenceSelection.DoneIsMaximal` | crates/services/archive-friends/src/compiler.rs:117-167 | After a round that adds nothing, every unselected item is capped, a repeat or too big |
| `EvidenceSelection.BestTrial` | crates/services/archive-friends/src/compiler.rs:72-80 | The first trial of the highest score |
| `Sampling.Sample` | crates/services/archive-friends/src/sampling.rs:173-316 | Each pick is the best one at its time, missing friends first; a success speaks for every invited friend with evidence, within the prompt, context and author limits, and leaves out nothing that would still fit; a friend is called unrepresented only if all of their evidence is too big for what is left |
| `Sampling.PickOne` | crates/services/archive-friends/src/sampling.rs:217-305 | The best ranked choice that fits is taken, for the first missing friend if one is missing, and what is rejected breaks a limit for good |
| `Sampling.ReservationsComeFirst` | crates/services/archive-friends/src/sampling.rs:210-225 | The picks begin with one for each friend who has evidence, in the order of the friends; before all of these have one, no pick goes to anybody else |
| `Mentions.AcceptedCompletion` | crates/services/archive-friends/src/retrieval.rs:96-136 | Accepting a completion puts the alias exactly at the edit, keeps every earlier mention, and leaves the caret behind one white space with no completion active |
| `Mentions.LaterMentions` | crates/services/archive-friends/src/retrieval.rs:96-136 | The mentions behind an accepted completion reappear unchanged and moved with the text, and nothing else among them, if and only if no `@` with a handle follows directly; otherwise that one comes first |
| `Mentions.SpaceFreesAMention` | crates/services/archive-friends/src/retrieval.rs:112-123 | Completing the first mention of `@a@b` makes a mention of the second `@` |
| `Mentions.ScanShifts` | crates/services/archive-friends/src/retrieval.rs:139-183 | Equal rests of two texts hold equal mentions, wherever they start |
| `Mentions.CompletesExactlyActiveQueries` | crates/services/archive-friends/src/retrieval.rs:96-124 | A completion is accepted exactly for a configured friend whose caret stands in a mention that a scan of the draft finds outside of code and glued to nothing, and it replaces that mention from its `@` on |
| `Mentions.ActiveQuery` | crates/services/archive-friends/src/retrieval.rs:57-85 | An active query stands outside of code and is not glued to anything |
| `Mentions.ScanSplits` | crates/services/archive-friends/src/retrieval.rs:139-183 | A scan that passes an `@` is the scan up to it followed by the scan from it |
| `Mentions.ScanMentions` | crates/services/archive-friends/src/retrieval.rs:139-183 | The scanner loop computes the mentions that its meaning describes |

## Left out

- ContextSelection.SelectContext: the measuring function is taken to be stateless.
- Discovery.DiscoverGgufModels: completeness assumes that a directory lists the same things under each of its names; the file system does not change during the scan, headers are not read, and the two final sorts for presentation are not modelled.
- EvidenceSelection.Select: requires unique evidence identifiers and distinct friend accounts, which crates/services/archive-friends/src/retrieval.rs:401-426 establishes; the ranking is an arbitrary comparison, and a record that cannot be encoded is not modelled.
- Sampling.Sample: the floating-point scores become an arbitrary comparison and the context share a given number of characters.
- Mentions.AcceptedCompletion: takes the alias for a valid handle, which crates/services/archive-friends/src/config.rs:247 checks.
- GroupWorkspaceRuns.AcceptedPatchesInstallTheReview: calls are modelled on values, cut at their awaits, because other steps act in between; encryption is an opaque value fixed at preparation; the local copy of the group that a publish stores at the end is not modelled.
- Snapshot.Validate: metadata that cannot be encoded is not modelled, only its size.
- RunControl.OneWinner: the cell is modelled on values, step by step, because other calls act between a claim's load and its exchange; memory orderings weaker than sequential consistency are not.
- NativeContext.DrainIsFinal: timed waits and a poisoned lock are not modelled; a drain that gives up simply never succeeds.
- Byte offsets of errors: positions count characters; every size limit is still taken in UTF-8 bytes or UTF-16 units where the source does so.
- Character tables: which characters are alphanumeric is a given set that contains the ASCII letters and digits and no white space.
- SQL, JSON and TOML codecs, cryptography, clocks and the network: tables are sequences, transactions are single steps, and encoded sizes are given functions.
- Host glue (`xtask`, the Swift helpers, the desktop front ends) and the checks and constants of configuration: they hold no state worth a proof.
- Archive retrieval and the freshness checks on files: they read data that can change outside of the model.
