# A verified model of the memory core and four neighbouring algorithms

cptr keeps what its agents learn in a versioned memory store, reads it through derived indexes, feeds it by a
retrying job queue and guards it by a cache. This project models those parts in Dafny and proves what they keep over
whole runs. `dafny verify dfyconfig.toml` checks everything.

Classes follow the classes of the program (`SqlMemoryStore`, `MemoryLexicalIndex`, `MemoryGraphStore`,
`MemoryConflictStore`, `MemoryJobStore`, the gate cache, the service). Each of their methods is proved equal to a
specification function on values; the theorems are about runs of those functions.

| file | contents |
|---|---|
| `Records`, `Transactions`, `Runs` | rows, one function per store transaction, sequences of transactions |
| `Store` | the store as a class; every method is tied to its transaction |
| `Contents` | where every row comes from and what of it never changes |
| `Supersession`, `History`, `Tiling` | links between versions, time travel on both time axes |
| `Branches`, `BranchMerge`, `MergeFacts` | branches, snapshots, restore, the merge loop |
| `Lexical`, `LexicalOrder`, `Graph`, `GraphStore`, `Conflicts` | the derived indexes |
| `Rebuild`, `RebuiltGraph`, `RebuiltConflicts`, `Forget`, `Service` | paged rebuild and staged forget over the indexes |
| `Jobs`, `Gate` | job queue with its worker, gate cache |
| `Weights`, `Ranking` | learned ranking weights and the score that uses them |
| `Chats`, `Usage`, `Streaks`, `ChatTime`, `Audio`, `Slugs` | chat trees, usage accounting, audio cutting, slug allocation |

## How the model reads the code

- A transaction is one atomic step. Identifiers from the random generator are arguments, and the state remembers which
  were issued, so that "never issued before" can be demanded. Clocks are arguments.
- A query whose order the database may choose takes that order as an argument: the order of branch rows in a merge, the
  row a `LIMIT 1` query answers, the order in which conflict candidates come.
- Foreign keys are enforced (`cptr/utils/db.py:31-36`), so a creation with a missing parent fails, and deleting a row
  sets references to it to null.
- Floating point numbers are reals; the logarithm is any function that is positive and rising on positive
  numbers.

## What turned out not to hold

For each there is the exact condition, and where the condition needs it an input on which the property fails.

- Asking what was known at an instant is exact if and only if every row keeps the past: none with an end of validity of
  its own was retired afterwards, none is dated on the other side of the cut (`History.AsOfRecoversThePastIff`). Call by
  call: a creation keeps the past unless its row is dated back onto the timeline (`History.CreationKeepsThePastIff`); a
  supersession keeps it unless it retires a known row that has an end of validity, which the retirement overwrites
  (`History.SupersedeKeepsThePastIff`), and so does a merge (`History.MergeRowKeepsThePastIff`,
  `History.MergeKeepsThePastIff`); `supersede_with_existing`, which stores no time of retirement, almost never does
  (`History.ExistingKeepsThePastIff`). A memory stored with an end of validity and superseded later is told to have been
  believed valid beyond that end (`History.EndOfValidityIsLost`).
- `supersede_with_existing` can close a cycle of successors; it does so exactly when the new row already leads to the
  old one (`Supersession.ExistingAcyclicIff`, `Supersession.ResolvingTwiceClosesACycle`).
- A restore succeeds if and only if nobody asked for its branch name before; so a snapshot can be restored at most once,
  and not at all after another one with the same last eight characters (`Branches.RestoreSucceedsIff`,
  `Branches.SecondRestoreIsRefused`).
- Merging a branch again is quiet if and only if the content of each eligible row without a parent is still held on the
  main line (`BranchMerge.RemergeIsQuietIff`, `BranchMerge.OrphanComesBack`).
- At the cap of 200 sources a projection can write a link that its ends do not support
  (`Graph.ProjectKeepsWholeIff`, `Graph.CapBreaksWhole`).
- A rebuild leaves two rows for one contradicting pair if and only if both rows report each other and the stored fact
  key is not stable under normalisation (`RebuiltConflicts.OneRowPerContradictionIff`), as "api_key=[redacted]|is" is
  not (`RebuiltConflicts.TwoRowsForOnePair`). Such a pair of global rows makes every later rebuild of a workspace fail;
  when one fails is `RebuiltConflicts.RebuildIsSmoothIff`.
- A rebuild files a contradiction for a pair that was filed as a change over time when the later, trusted row was
  learned: it visits the older row first, and the visited one decides (`RebuiltConflicts.RebuildForgetsChange`).
- Restoring a snapshot as soon as it is taken changes the answer of a historical search, and of no other, as soon as
  that answer holds an inactive row (`Branches.RestoreAtOnceIff`).
- A forgotten global memory leaves graph rows behind in workspaces whose jobs projected it
  (`Forget.CompletedForgetIsCleanIff`, `Forget.GlobalMemoryStrays`).
- A hit of the gate cache is fresh in what a search can reach if and only if the owner's global rows are unchanged, for
  which an unchanged version of the global namespace would be a sufficient check; the gate compares only the version of
  the workspace (`Gate.HitIsFreshIff`, `Gate.GlobalRowGoesUnnoticed`).
- The default ranking weights add up to 1.08, so a profile whose weights all vanish falls back to something that is not
  a distribution (`Weights.NormalizeIsDistributionIff`, `Ranking.ClampIsIdleIff`).
- Deleting a chat loops forever if and only if the chat is its own descendant (`Chats.DeleteStopsIff`).
- The slug handed out is free whatever other slugs the owner has, if and only if the suffix of the identifier does not
  cut the slug of the name, as it does not when both together have at most 71 characters (`Slugs.FreshAmongAllIff`,
  `Slugs.SuffixCutsBaseIff`, `Slugs.CutBaseCollides`).
- User and assistant messages add up to the messages of the period if and only if no message has another role
  (`Usage.WrittenAddsUpIff`).

## Model

| member | source | states |
|---|---|---|
| `Contents.RowIsAsGiven` | cptr/memory/store.py:156-215 | Over every run of every transaction each row leads back to one step that added it: its text, kind, dates, scope, parent and branch are what that create or supersede step was given, or those of the branch row for which a merge added it; only confidence and time of verification differ, and are those of its last verification. |
| `Contents.StepAddsGiven` | cptr/memory/store.py:1154-1180 | A row that appears was given: by a creation, by a supersession, or by the first branch row of the merge for which the database produced its identifier. |
| `Contents.StepPreserves` | cptr/memory/store.py:562-586 | No transaction rewrites text, kind, scope, branch or start of a row; verification alone sets confidence and time of verification, a repeated observation alone the time of observation; a parent is lost only with the row it names. |
| `Contents.SupersessionIsShown` | cptr/memory/store.py:349-422 | After a main-line supersession every instant from its start on shows the given content and not the replaced row, every earlier one the replaced row; all other rows are shown as before. |
| `Contents.ExistingIsShown` | cptr/memory/store.py:920-946 | After a supersession by an existing row the replaced row is shown up to that row's start, or its creation, or now; all others as before. |
| `Contents.MergedRowIsShown` | cptr/memory/store.py:1154-1198 | When one pass of a merge retires a parent, time travel shows the parent up to the start of the row that took over and an added row with the branch row's content from now on; all others as before. |
| `Supersession.RelinkAcyclicIff` | cptr/memory/store.py:379-415 | Giving one row a new successor keeps the successor links free of cycles if and only if the successor did not already lead back to the row. |
| `Supersession.ChainEnds` | cptr/memory/store.py:410-415 | In a cycle-free store following successors from any row ends, within as many hops as there are rows. |
| `Supersession.SupersessionIsAcyclic` | cptr/memory/store.py:379-415 | Over every run from an empty store without supersede_with_existing (create, supersede, merge, snapshot, branch, restore, verify, dispute, forget): no cycle, no active row has a successor, following ends. |
| `Supersession.SuccessorIsWrittenOnce` | cptr/memory/store.py:1181-1198 | Once a row has a successor, no later step gives it another: it keeps that one, or none after the successor is forgotten. |
| `Supersession.StepNeverRevives` | cptr/memory/store.py:948-992 | No single transaction turns an inactive row active again. |
| `Supersession.StepKeepsHistory` | cptr/memory/store.py:349-422 | No step gives a row that has a successor a different one, and none makes it active again. |
| `Supersession.InactiveIsForever` | cptr/memory/store.py:948-992 | Over every run of every transaction a row that is inactive or gone stays so. |
| `Supersession.ExistingAcyclicIff` | cptr/memory/store.py:920-946 | supersede_with_existing keeps the links acyclic if and only if the new row does not already reach the replaced one. |
| `Supersession.ResolvingTwiceClosesACycle` | cptr/memory/store.py:920-946 | Resolving one conflict first one way and then the other closes a cycle. |
| `History.AsOfRecoversThePastIff` | cptr/memory/store.py:994-1054 | Cut any forward run, its creations dated as they like, at a knowledge time: as-of time travel on the final state returns, for every instant, the rows plain time travel returned at the cut, if and only if each row keeps the past: not retired later from an end of validity of its own, and dated on its own side of the cut unless never valid. |
| `History.AsOfIsStable` | cptr/memory/store.py:994-1054 | Corollary without the condition for runs whose creations state no end of validity and are dated on the side of the cut on which they happen. |
| `History.PastIsRecoveredIff` | cptr/memory/store.py:1029-1053 | For one state and a later one: rewinding later retirements gives back the earlier answers for every instant if and only if every row keeps the past. |
| `History.RowIsToldIff` | cptr/memory/store.py:1029-1053 | The same row by row: the past of one row is told as it was, for every instant, if and only if that row keeps it. |
| `History.CreationKeepsThePastIff` | cptr/memory/store.py:156-215 | A creation leaves every as-of answer at a knowledge time as it was if and only if its row is off the timeline, observed later or never valid. |
| `History.SupersedeKeepsThePastIff` | cptr/memory/store.py:372-418 | A supersession after the knowledge time leaves every as-of answer at that time as it was if and only if the replacement lands on a branch or the replaced row, before the call, is off the timeline, observed later or without an end of validity. |
| `History.MergeRowKeepsThePastIff` | cptr/memory/store.py:1134-1199 | One pass of a merge leaves every earlier as-of answer as it was if and only if it retires no parent that is on the timeline, was observed by then and has an end of validity. |
| `History.MergeKeepsThePastIff` | cptr/memory/store.py:1134-1199 | The whole merge leaves every earlier as-of answer as it was if and only if none of the rows it retires is such a row. |
| `History.EndOfValidityIsLost` | cptr/memory/store.py:1029-1053 | From the empty store: a creation with an end of validity, then a supersession; at and after that end the final store says the memory was known valid, which the store at the time denied. |
| `History.ExistingKeepsThePastIff` | cptr/memory/store.py:920-946 | Supersession by an existing row leaves every as-of answer as it was if and only if the replaced row, before the call, was off the timeline, observed later, retired later from an active state, already replaced by that row from that instant, or never valid. |
| `Branches.CreateIsolatedIff` | cptr/memory/store.py:187-205 | A successful creation leaves all main-line rows as they were if and only if the new row lands on a branch. |
| `Branches.SupersedeIsolatedIff` | cptr/memory/store.py:381-415 | A successful supersession leaves all main-line rows as they were if and only if its effective branch is not the main line. |
| `Branches.BranchIsIsolated` | cptr/memory/store.py:187-205 | With an active branch, any number of creations and supersessions in the namespace change no main-line row. |
| `Branches.SnapshotsAroundBranchAgree` | cptr/memory/store.py:1056-1090 | Snapshots taken before and after work on a branch have equal manifests: nothing added, removed or changed. |
| `Branches.SnapshotsAroundSupersedeDiffer` | cptr/memory/store.py:1056-1090 | Snapshots around one main-line supersession differ by exactly that replacement. |
| `Branches.RestoredViewIsFrozen` | cptr/memory/store.py:902-918 | After a restore, and any later writes on its branch, search finds on the main line exactly the snapshot's rows that were still active at the restore. |
| `Branches.RestoreSucceedsIff` | cptr/memory/store.py:862-918 | At any point of any run a restore of a known snapshot succeeds if and only if no earlier step asked for the same branch name. |
| `Branches.StepTakesNames` | cptr/memory/store.py:881-892 | One transaction takes a branch name exactly by asking for it; names are never freed. |
| `Branches.SecondRestoreIsRefused` | cptr/memory/store.py:902-918 | In any run, after a restore of a snapshot every restore of it, or of another one of the namespace with the same last eight characters, is refused and changes nothing. |
| `Branches.SameRestoreNameIff` | cptr/memory/store.py:902-918 | Two snapshots want the same branch name if and only if their last eight characters agree. |
| `Branches.BranchIsAsGiven` | cptr/memory/store.py:862-900 | At every point of every run a branch row has the namespace, name and snapshot that the step that made it was given, and is marked as merged if and only if a step since has merged it. |
| `Branches.SnapshotIsDefaultSearch` | cptr/memory/store.py:805-843 | Without an active branch or snapshot a new snapshot lists exactly what the default search finds: the active main-line rows of the namespace and the owner's global ones. |
| `Contents.SnapshotVersionTells` | cptr/memory/store.py:805-843 | In every run the versions of a namespace's snapshots never fall, and two with the same version list the same rows of the namespace. |
| `Branches.RestoreAtOnceIff` | cptr/memory/store.py:902-918 | Restoring that snapshot at once leaves the answer to a search as it was if and only if the search names a branch or its answer holds active rows alone, as that of every search that is not historical does. |
| `Branches.MergeLeavesBranch` | cptr/memory/store.py:1200-1207 | A merge of the active branch leaves it: the next creation that names no branch is on the main line and the default search finds every active main-line row in scope; a merge of another branch moves nothing. |
| `Branches.StepMovesView` | cptr/memory/store.py:862-918 | Activations set branch and snapshot, the merge of the active branch clears both, nothing else moves them. |
| `Branches.ActiveBranchIsLast` | cptr/memory/store.py:1203-1205 | At every point of every run the active branch is the one last activated, unless it has been merged. |
| `BranchMerge.VerdictsInClosedForm` | cptr/memory/store.py:1134-1199 | Each row's verdict, although taken against a state the loop changes, is decided by the state before the merge and the earlier rows alone: skipped, conflicting or merged. |
| `BranchMerge.ParentIsReplacedOnce` | cptr/memory/store.py:1181-1198 | Two rows of a merge never both replace the same main-line parent. |
| `BranchMerge.MergeKeepsHashesUnique` | cptr/memory/store.py:1154-1180 | If no two active main-line rows share a content hash before the merge, none do after it. |
| `BranchMerge.EveryRowIsTallied` | cptr/memory/store.py:1134-1215 | Every branch row ends in exactly one of merged, skipped, conflicted; the lists hold nothing else and add up. |
| `BranchMerge.OutcomesInOrder` | cptr/memory/store.py:1199-1215 | The report lists rows in the order the loop met them. |
| `BranchMerge.RemergeIsQuietIff` | cptr/memory/store.py:1134-1199 | Merging the branch again with the same strategy creates and supersedes nothing if and only if the content of every eligible parentless row is still held on the main line. |
| `BranchMerge.RemergeOfParentedRows` | cptr/memory/store.py:1134-1199 | A branch whose rows all have parents is merged once: a second merge changes no row. |
| `BranchMerge.OrphanComesBack` | cptr/memory/store.py:1154-1199 | A family of instances where a parentless row's content is replaced during the merge and would be merged again. |
| `BranchMerge.ReferencesNeverDangle` | cptr/memory/store.py:965-977 | Over every run each successor and parent reference names a row that exists. |
| `Tiling.VersionsTileIff` | cptr/memory/store.py:1006-1014 | For a linked chain, time travel shows exactly one version at each instant from the first start on, the last that has started, if and only if no version starts after both a later one and the first. |
| `Tiling.RunPartitions` | cptr/memory/store.py:410-415 | At every point of a run of creations and supersessions the main line is a disjoint union of linked chains. |
| `Tiling.VersionsTileTime` | cptr/memory/store.py:410-415 | In every run that dates supersessions forward, interleaving any number of chains, each instant shows exactly one version of a chain: the last whose valid_from is not later. |
| `Store.SqlMemoryStore.NamespaceInSession` | cptr/memory/store.py:103-130 | The namespace row is found or created with version 0; nothing else changes. |
| `Store.SqlMemoryStore.BumpVersion` | cptr/memory/store.py:132-136 | The namespace version rises by one; nothing else changes. |
| `Store.SqlMemoryStore.CreateMemory` | cptr/memory/store.py:156-215 | The store is the Create transaction of the old store: blank text and missing parents are refused, the active branch applies when none is given, the version rises. |
| `Store.SqlMemoryStore.SupersedeMemory` | cptr/memory/store.py:349-422 | The store is the Supersede transaction: missing or inactive rows are refused, and the old row is retired only when the replacement lands on the main line. |
| `Store.SqlMemoryStore.SupersedeWithExisting` | cptr/memory/store.py:920-946 | The store is the SupersedeExisting transaction: the row is retired whatever its status, without a retirement time. |
| `Store.SqlMemoryStore.VerifyMemory` | cptr/memory/store.py:562-586 | The store is the Verify transaction. |
| `Store.SqlMemoryStore.MergeSourceEvents` | cptr/memory/store.py:254-267 | The store is the MergeSources transaction: the observation time moves. |
| `Store.SqlMemoryStore.MarkDisputed` | cptr/memory/store.py:979-992 | The status becomes disputed, whatever it was; unknown or foreign rows are refused. |
| `Store.SqlMemoryStore.BeginForget` | cptr/memory/store.py:948-963 | The status becomes deleting, whatever it was; unknown or foreign rows are refused. |
| `Store.SqlMemoryStore.ForgetMemory` | cptr/memory/store.py:965-977 | The row is deleted and references to it are nulled; unknown rows are refused. |
| `Store.SqlMemoryStore.CreateSnapshot` | cptr/memory/store.py:805-843 | The manifest is the set of active main-line rows of the namespace. |
| `Store.SqlMemoryStore.CreateBranch` | cptr/memory/store.py:862-900 | Unknown snapshots and used names are refused; activating sets the namespace's branch and snapshot. |
| `Store.SqlMemoryStore.RestoreSnapshot` | cptr/memory/store.py:902-918 | A restore is an activated branch named after the snapshot. |
| `Store.SqlMemoryStore.CompareSnapshots` | cptr/memory/store.py:1056-1090 | Added, removed and changed are the differences of the manifests, a change being a removed row whose successor was added. |
| `Store.SqlMemoryStore.TimeTravelRecords` | cptr/memory/store.py:994-1054 | The answer is TimeTravel, or AsOf when a knowledge time is given. |
| `Store.SqlMemoryStore.MergeOneRow` | cptr/memory/store.py:1134-1199 | One pass of the loop adds the row's verdict to the lists and leaves the state MergeRow. |
| `Store.SqlMemoryStore.MergeLoop` | cptr/memory/store.py:1134-1199 | The loop leaves the state MergeRows and the lists of Outcomes. |
| `Store.SqlMemoryStore.MergeBranch` | cptr/memory/store.py:1092-1217 | The store and the report are those of the Merge transaction, errors included. |
| `Store.NextTurn` | cptr/memory/store.py:1134-1160 | At each pass the branch row is still active and the identifier to insert is still unused, although earlier passes changed the table. |
| `Lexical.FrequenciesSumUp` | cptr/memory/lexical.py:48-85 | The frequencies stored for a text add up to its token count. |
| `Lexical.IndexHoldsLastText` | cptr/memory/lexical.py:48-85 | After any sequence of index, remove and clear, a document is present exactly when its last indexing still stands, with that text. |
| `Lexical.RawScoreSign` | cptr/memory/lexical.py:127-150 | A text scores above zero if and only if it shares a token with the query, and never below. |
| `Lexical.ScoreIsUnique` | cptr/memory/lexical.py:87-158 | The texts determine the answer: two maps that meet the description of the score are equal. |
| `LexicalOrder.RarerTermRanksHigher` | cptr/memory/lexical.py:134-151 | Of two texts of equal length that each mention one query term, equally often, the one whose term fewer texts in scope hold gets the higher score. |
| `LexicalOrder.DenserTextRanksHigher` | cptr/memory/lexical.py:142-151 | A text no longer than another that mentions no query term less often is not ranked lower, and is ranked higher as soon as it mentions one more often or, when length counts, is shorter. |
| `LexicalOrder.AverageIsMeanOfTokens` | cptr/memory/lexical.py:127-128 | Without empty texts the average length is the mean number of tokens. |
| `Lexical.MemoryLexicalIndex.Count` | cptr/memory/lexical.py:52-53 | Token counts are multiplicities in the token list. |
| `Lexical.MemoryLexicalIndex.IndexMemory` | cptr/memory/lexical.py:48-85 | The tables hold exactly the token multisets of the texts, this document's replaced. |
| `Lexical.MemoryLexicalIndex.RemoveMemory` | cptr/memory/lexical.py:160-176 | The tables hold exactly the remaining texts. |
| `Lexical.MemoryLexicalIndex.ClearScope` | cptr/memory/lexical.py:178-193 | The tables hold exactly the texts of other scopes. |
| `Lexical.MemoryLexicalIndex.Lengths` | cptr/memory/lexical.py:108-126 | Lengths and average length are those of the texts in scope. |
| `Lexical.MemoryLexicalIndex.RawScores` | cptr/memory/lexical.py:127-150 | The accumulated scores are the BM25 sums over the texts. |
| `Lexical.MemoryLexicalIndex.Score` | cptr/memory/lexical.py:87-158 | The score listed for each given text of the namespace or the owner's global scope that shares a token with the query, and no other, is its share of the best BM25 sum, in (0, 1] with maximum 1. |
| `Graph.ProjectKeepsWholeIff` | cptr/memory/graph.py:195-237 | A projection keeps sources sound and every link supported at both ends if and only if each link it writes carries: both ends have room, or the link itself is full. |
| `Graph.CapBreaksWhole` | cptr/memory/graph.py:195-237 | Two hundred memories naming one entity, then one naming it and another: the graph was whole and no longer is. |
| `Graph.RemoveKeepsWhole` | cptr/memory/graph.py:368-428 | Removing a memory keeps the graph whole at any fill: no link outlives its ends. |
| `Graph.ClearKeepsWhole` | cptr/memory/graph.py:239-266 | Clearing a scope keeps the graph whole. |
| `Graph.RemoveUndoesProject` | cptr/memory/graph.py:368-428 | Removing a freshly projected memory restores all entities and links; only confidences may stay raised. |
| `Graph.RunsKeepWhole` | cptr/memory/graph.py:122-139 | Over every run below the cap: sources non-empty and without repetition, each link's sources contained in those of both ends. |
| `Graph.RunsKeepSound` | cptr/memory/graph.py:195-428 | Every run, at the cap too, keeps sources non-empty, without repetition and at most 200, and identifiers of entities apart. |
| `GraphStore.ExtractEntities` | cptr/memory/graph.py:47-63 | One entity per non-blank normalised name and type, in order of first appearance, displayed as the last value with that key. |
| `GraphStore.MemoryGraphStore.UpsertEntity` | cptr/memory/graph.py:77-139 | The entity exists afterwards, with the memory among its sources unless they are full; other rows are unchanged. |
| `GraphStore.MemoryGraphStore.Connect` | cptr/memory/graph.py:141-193 | The link exists afterwards with the memory added and the confidence not lowered; other rows are unchanged. |
| `GraphStore.MemoryGraphStore.ProjectMemory` | cptr/memory/graph.py:195-237 | The graph is the projection of the old one: every name upserted, the first linked to the others. |
| `GraphStore.MemoryGraphStore.RemoveMemory` | cptr/memory/graph.py:368-428 | The graph is the old one without the memory: rows with no other source deleted. |
| `GraphStore.MemoryGraphStore.ClearScope` | cptr/memory/graph.py:239-266 | Entities and links of the scope are gone, others unchanged. |
| `Conflicts.EitherSeesIff` | cptr/memory/service.py:742-777 | One of two rows, of any namespaces, finds the other when analysed if and only if both are active, of the same scope, one lies where the other looks, and their facts have the same key and different values. |
| `Conflicts.MeetsWithinNamespaceIff` | cptr/memory/store.py:282-312 | Within one namespace two rows of a scope meet if and only if their branches are compatible and they are not user-scoped rows kept in a workspace. |
| `Conflicts.MemoryConflictStore.Record` | cptr/memory/conflicts.py:108-161 | A pair known in either order is left as it is, a new one inserted under the normalised key, and an insertion that repeats a stored row is refused. |
| `Conflicts.MemoryConflictStore.ClearScope` | cptr/memory/conflicts.py:98-106 | Rows of the scope are gone, others unchanged. |
| `Conflicts.MemoryConflictStore.AnalyzeConflicts` | cptr/memory/service.py:742-787 | In whatever order the candidates come, the table ends as Analyze says, and the call fails exactly when an insertion clashes. |
| `Rebuild.DerivedIndexes.VisitRow` | cptr/memory/service.py:996-1022 | One row goes into the text index, the graph and, when active, the conflict analysis. |
| `Rebuild.DerivedIndexes.VisitPage` | cptr/memory/service.py:996-1022 | The rows of a page are visited in order up to the first refusal. |
| `Rebuild.DerivedIndexes.RebuildDerivedIndexes` | cptr/memory/service.py:974-1038 | For every batch size the offset loop ends, visits each listed row once, and leaves what one pass over the whole listing leaves. |
| `Rebuild.PageProgress` | cptr/memory/store.py:319-347 | Visiting the next page after the pages so far equals visiting the longer prefix of the listing. |
| `Rebuild.RebuiltTextsAreExact` | cptr/memory/service.py:974-1022 | After a rebuild the texts are those of other scopes plus exactly those of the listed rows that are not being deleted. |
| `RebuiltGraph.RebuiltEntitiesAreExact` | cptr/memory/service.py:1008-1015 | After a rebuild an entity of the scope exists if and only if a listed memory that is not being deleted names it among its first fifty names, and lists the first 200 of those memories in order; up to 200 exactly those. |
| `RebuiltGraph.RebuiltLinksAreExact` | cptr/memory/service.py:1008-1015 | Two of its entities are linked if and only if such a memory names the one first and then the other, with the first 200 of those memories as sources. |
| `RebuiltGraph.RebuiltLinkConfidence` | cptr/memory/graph.py:143-193 | Every link of a rebuilt scope has the confidence of a projection. |
| `RebuiltGraph.RebuildStaysInScope` | cptr/memory/graph.py:239-262 | A rebuild changes no entity and no link outside its own scope and the owner's global one. |
| `RebuiltConflicts.RebuiltRowsPerPair` | cptr/memory/conflicts.py:124-161 | For a rebuild of any scope that is not refused, and rows filed under any namespace: the number of conflict rows it adds for each pair, for every visiting order: none, one or two. |
| `RebuiltConflicts.OneRowPerContradictionIff` | cptr/memory/conflicts.py:124-161 | A pair that contradicts within the rebuilt scope has exactly one row there if and only if only one of the two reports the other or normalising leaves the stored fact key as it is. |
| `RebuiltConflicts.TwoRowsForOnePair` | cptr/memory/conflicts.py:37-50 | With two global facts about "api_key=x", whose key is redacted once more when it is stored, a rebuild leaves two rows for the pair. |
| `RebuiltConflicts.RebuildIsSmoothIff` | cptr/memory/service.py:974-1022 | A rebuild of any scope is refused if and only if, in the table it starts from, some listed row of another namespace would insert a stored row that its look-up misses. |
| `RebuiltConflicts.DoubledPairBlocks` | cptr/memory/conflicts.py:124-161 | A pair filed twice makes every later analysis of its rows, in any scope that does not clear it, fail. |
| `RebuiltConflicts.WorkspaceRebuildIsRefused` | cptr/memory/service.py:974-1022 | After that global rebuild every rebuild of a workspace of the owner is refused. |
| `RebuiltConflicts.RebuildIsSmooth` | cptr/memory/service.py:974-1022 | A rebuild of the global scope never meets a refusal. |
| `RebuiltConflicts.RebuiltRowsSayTruth` | cptr/memory/conflicts.py:72-86 | After a rebuild every conflict row of the scope is about two active rows that contradict each other, and is a change over time if and only if the analysed one starts later and is trusted. |
| `RebuiltConflicts.RebuildForgetsChange` | cptr/memory/conflicts.py:72-86 | For a pair whose analysis at the time the later, trusted row was learned says change over time, a rebuild that visits the other row first says contradiction, and with a stable fact key nothing else. |
| `Forget.ForgottenIsNeverFound` | cptr/memory/store.py:293-304 | Once a forget has begun, by its workspace or by a caller without one, no default search in any later state of any history returns the memory. |
| `Forget.CompletedForgetIsCleanIff` | cptr/memory/service.py:907-972 | A completed forget leaves no record, text, vector, entity or link naming the memory if and only if no graph row about it lies outside its own workspace. |
| `Forget.RetriesConverge` | cptr/memory/service.py:915-960 | After any number of interrupted attempts, one that completes leaves nothing naming the memory if and only if no graph row about it lay outside its workspace before the first. |
| `Forget.SourceGoesFirst` | cptr/memory/service.py:931-938 | When the managed source cannot be deleted the record and all index rows stay as they are, the memory is hidden, and the same caller may retry. |
| `Forget.RebuildDropsHidden` | cptr/memory/service.py:982-1007 | A rebuild of its workspace leaves no text, vector or graph row there about a memory whose forgetting was interrupted. |
| `Forget.ProjectionNames` | cptr/memory/graph.py:195-237 | A projection adds no memory but its own, in no workspace but its own. |
| `Forget.FinishedJobIndexes` | cptr/memory/service.py:725-730 | An index job that gets through leaves the text and vector of its memory under the memory's own workspace, and touches those of no other memory. |
| `Forget.RebuiltVectorsAreExact` | cptr/memory/service.py:982-1018 | After a rebuild the vectors of the scope are those of the listed memories that are not being deleted; others stay. |
| `Forget.RebuildNames` | cptr/memory/service.py:974-1027 | A rebuild adds no graph row outside the workspace of the memory it is about, and none about a memory that is gone or being deleted. |
| `Forget.HistoryStaysTidy` | cptr/memory/service.py:974-1027 | At every point of every history of transactions, index jobs, rebuilds and forgets whose index jobs run in the memory's own workspace, every text, vector and graph row is about a memory that exists, and graph rows lie in its workspace. |
| `Forget.ForgottenLeavesNothing` | cptr/memory/service.py:907-972 | In every history of transactions, index jobs stopped anywhere, rebuilds and forgets, whose index jobs run in the memory's own workspace: after one completed forget nothing names the memory, then or ever after. |
| `Forget.GlobalMemoryStrays` | cptr/memory/service.py:907-972 | A global memory projected in a workspace leaves an entity there that no forget removes. |
| `Service.MemoryService.Forget` | cptr/memory/service.py:907-972 | Record, vectors, texts and graph after the call are those of the stage the attempt reached, and it reports success exactly when it got through all stages. |
| `Gate.GateCache.RequireControlActionMemory` | cptr/memory/gate.py:81-118 | The answer is a hit exactly when the stored entry is young, of the current version and settings; otherwise the entry is replaced, the oldest one evicted when full. |
| `Gate.GateCache.Oldest` | cptr/memory/gate.py:113-115 | The evicted entry is one stored no later than any other. |
| `Gate.CacheIsBounded` | cptr/memory/gate.py:113-116 | In every run the cache never exceeds its maximum. |
| `Gate.StepVersion` | cptr/memory/store.py:132-154 | No transaction lowers a version, and one that leaves a version alone leaves the rows of that namespace alone. |
| `Gate.HitsAreSound` | cptr/memory/gate.py:93-101 | Every hit returns a context stored for the same user, workspace and scope within the time to live, under the current settings and version, with no row of the namespace changed in between. |
| `Gate.NextRequestHitsIff` | cptr/memory/gate.py:91-119 | After a stored context, the next request for the same user, workspace and scope is a hit on it if and only if it comes within the time to live, under the same settings and version; unless the entry was evicted. |
| `Gate.EvictionIsOfOldest` | cptr/memory/gate.py:113-116 | Nothing is evicted before more slots were asked for than fit, and then the oldest entry. |
| `Gate.GatedScopes` | cptr/memory/gate.py:15-24 | The four gated scopes are answered with a context, the two fast ones alone from the cache. |
| `Gate.HitIsFreshIff` | cptr/memory/gate.py:91-101 | In every history: what a search from the namespace of a hit can reach is as it was when the context was prepared if and only if the owner's global rows are; it is so when the global version has not moved, and always for the global scope. |
| `Gate.GlobalRowGoesUnnoticed` | cptr/memory/gate.py:91-101 | From the empty world: a request in a workspace, a global creation and the same request again end in a hit on a context that misses a memory the default search finds. |
| `Jobs.MemoryJobStore.EnqueueJob` | cptr/memory/jobs.py:29-54 | One pending job is added, others unchanged. |
| `Jobs.MemoryJobStore.ClaimDue` | cptr/memory/jobs.py:56-84 | The claimed job is first among the due pending ones by due time and creation; it is running with one more attempt; nothing else changes; none is claimed exactly when none is due. |
| `Jobs.MemoryJobStore.CompleteJob` | cptr/memory/jobs.py:86-94 | The named job is complete, others unchanged. |
| `Jobs.MemoryJobStore.FailJob` | cptr/memory/jobs.py:96-116 | The job waits for its delay, or is failed when its attempts are used up; others unchanged. |
| `Jobs.MemoryJobStore.RecoverStale` | cptr/memory/jobs.py:118-139 | Exactly the running jobs older than the limit go back to pending, and their number is returned. |
| `Jobs.MemoryJobStore.Counts` | cptr/memory/jobs.py:141-154 | Each status maps to its number of jobs. |
| `Jobs.MemoryJobStore.Drain` | cptr/memory/worker.py:132-137 | At a fixed time the loop claims every due job once, in order, up to its bound, and stops. |
| `Jobs.ClaimsAreBounded` | cptr/memory/jobs.py:96-139 | Over any run a job is claimed at most max_attempts (at least one) plus its number of recoveries times, and its attempts field is that number of claims. |
| `Jobs.NeverHandedOutTwice` | cptr/memory/jobs.py:96-139 | Between two claims of a job, that job failed with attempts left or a recovery found it stale. |
| `Jobs.JobIsLastWord` | cptr/memory/jobs.py:29-139 | In every history a job's status, attempts and due time are what the last event that concerns it says: enqueued, claimed, completed, failed with or without attempts left, or found stale. |
| `Jobs.FailedJobReturnsIff` | cptr/memory/jobs.py:96-116 | After a failure a job is due again if and only if attempts are left and its delay, at least a second, is over; until an event concerns it. |
| `Jobs.FirstInFirstOut` | cptr/memory/jobs.py:56-84 | Of two waiting jobs that are due, the one due earlier, or enqueued earlier, is claimed first. |
| `Jobs.NoJobIsLost` | cptr/memory/jobs.py:141-154 | Over any run the four status counts add up to the number of jobs enqueued. |
| `Weights.DefaultSum` | cptr/memory/retrieval.py:22-35 | The default weights add up to 1.08 and are not a distribution. |
| `Weights.NormalizeIsDistributionIff` | cptr/memory/retrieval.py:38-47 | Normalising yields twelve weights in [0, 1] summing to 1 if and only if some given or defaulted weight is positive. |
| `Weights.NormalizeFixesDistributions` | cptr/memory/retrieval.py:38-47 | Normalising a distribution changes nothing. |
| `Weights.LearnKeepsDistribution` | cptr/memory/store.py:783-797 | One learning step from a usable profile gives a distribution and does not reach the fallback. |
| `Weights.LearnedWeightsAreADistribution` | cptr/memory/store.py:771-797 | From a new profile, after any sequence of feedback the weights are a distribution, and no normalisation on the way reaches the fallback. |
| `Weights.StepIsBlend` | cptr/memory/store.py:787-797 | A positive step towards features that sum to 1 is a plain blend: normalising it changes nothing. |
| `Weights.StepMovesToGoal` | cptr/memory/store.py:791-794 | Before normalising, a step takes every weight the same share of its way to the feature, or for negative feedback to one minus the feature. |
| `Weights.NegativeIsComplement` | cptr/memory/store.py:760-797 | Negative feedback about some features is positive feedback about their complements. |
| `Weights.RateSchedule` | cptr/memory/store.py:790-791 | The rate is 3.6 / (20 + n) up to the 124th observation and 0.025 from there. |
| `Weights.RepeatedFeedbackConverges` | cptr/memory/store.py:787-797 | From any stored profile: a weight that a reader of the profile finds within d of its target in a distribution is, after n equal positive steps towards it, within 0.975^n of d. |
| `Weights.UsableProfilesConverge` | cptr/memory/store.py:787-797 | From any profile whose weights do not all vanish, n >= 39 / eps such steps bring every weight within eps of its target. |
| `Weights.NewProfileConverges` | cptr/memory/store.py:771-797 | The convergence for a new profile, whose stored defaults add up to 1.08: measured from the normalised defaults. |
| `Weights.MeanIsDistribution` | cptr/memory/store.py:734-744 | The observation-weighted mean of distributions is a distribution, which normalising leaves alone. |
| `Weights.AggregateProfile` | cptr/memory/store.py:710-750 | With usable profiles and some observation the answer is the observation-weighted mean of the normalised trained profiles, and a distribution; without observations the normalised defaults. |
| `Ranking.MemoryProfiles.LearnRetrievalProfile` | cptr/memory/store.py:752-797 | One profile takes one learning step, starting from the defaults when new; other profiles are unchanged. |
| `Ranking.WeightedIsMean` | cptr/memory/retrieval.py:135-136 | The weighted sum of features in [0, 1] under a distribution is in [0, 1]. |
| `Ranking.ClampIsIdleIff` | cptr/memory/retrieval.py:135-158 | The weighted sum is within [0, 1] for all feature vectors, so the last clamp is idle, if and only if the weights do not all vanish. |
| `Ranking.ScoreIsMonotone` | cptr/memory/retrieval.py:135-158 | Raising any features never lowers a score. |
| `Ranking.DiscountCapsScore` | cptr/memory/retrieval.py:137-142 | A score is at most its status and staleness discount; a memory that is not active scores at most 0.45 of what it would as an active one. |
| `Ranking.ScoreIsDiscounted` | cptr/memory/retrieval.py:135-158 | With usable weights the score is the weighted sum, times 0.32 when disputed or 0.45 when otherwise inactive, times 0.58 when stale. |
| `Ranking.FallbackScoresOne` | cptr/memory/retrieval.py:135-158 | With weights that all vanish a memory with every feature in full adds up to 1.08, and the clamp makes it 1. |
| `Chats.GetInternalDescendants` | cptr/models/chats.py:142-161 | On every parent graph, cycles included, the search ends and lists exactly the chats reachable through internal chats, each once. |
| `Chats.DeleteStopsIff` | cptr/models/chats.py:283-292 | The delete loop's frontier becomes empty if and only if the chat is not one of its own descendants. |
| `Chats.SharedLevelsMeanCycle` | cptr/models/chats.py:283-292 | A chat met at two depths puts the root below itself. |
| `Chats.ChatTable.Doomed` | cptr/models/chats.py:283-292 | When it ends, the delete set is the root and exactly the descendants the search lists. |
| `Chats.ChatTable.Delete` | cptr/models/chats.py:279-297 | Exactly those chats and their messages go, no chat that stays hangs below one that went, and the result says whether any row went. |
| `Usage.FileRows` | cptr/routers/chat.py:486-505 | Each day holds exactly what its in-range messages make; the role counts are exact. |
| `Usage.RollUp` | cptr/routers/chat.py:531-575 | One entry per day; each week is the sum of its days within the period; each running total is the sum of the days so far. |
| `Usage.WeekOfDay` | cptr/routers/chat.py:555-556 | A week starts on a Monday and holds seven days. |
| `Usage.RollupsAgree` | cptr/routers/chat.py:541-575 | In every additive quantity the weeks, the days and the last running total agree. |
| `Usage.EntryIsAdditive` | cptr/routers/chat.py:541-575 | Tokens, messages, chats and the messages of any one model are additive. |
| `Usage.NothingIsLost` | cptr/routers/chat.py:486-575 | The sum of the days equals tokens, messages, distinct chat-days and models counted directly from the messages of the period. |
| `Usage.GetUsage` | cptr/routers/chat.py:411-610 | The whole report is reconciled with the messages: days, weeks, running totals, models, roles; the streaks are exact and do not exceed the period. |
| `Usage.TotalPerModel` | cptr/routers/chat.py:499-508 | Each model used in the period has the messages that the daily counts show for it, and their tokens. |
| `ChatTime.ActiveSeconds` | cptr/routers/chat.py:470-475 | However chats interleave, each is credited with the pauses of at most half an hour between its own messages. |
| `ChatTime.LongestChat` | cptr/routers/chat.py:595 | The longest of them, or zero. |
| `ChatTime.ActiveIsSpanIff` | cptr/routers/chat.py:470-475 | Messages in order are credited with no more than the time from first to last, and with all of it if and only if no pause was longer. |
| `Usage.WrittenAddsUpIff` | cptr/routers/chat.py:493-496 | User and assistant counts add up to all messages if and only if none has another role. |
| `Usage.LifetimeIsPeriodIff` | cptr/routers/chat.py:448-461 | Lifetime tokens equal the period's if and only if no message outside the period has tokens. |
| `Streaks.RunAtIsLongest` | cptr/routers/chat.py:586-592 | The counter at a day is the length of the longest run ending that day. |
| `Streaks.LongestStreak` | cptr/routers/chat.py:586-592 | The answer is the maximum length of a run of consecutive active days. |
| `Streaks.CurrentStreak` | cptr/routers/chat.py:580-584 | The answer counts active days back from today up to the first inactive one. |
| `Streaks.CurrentIsMaximal` | cptr/routers/chat.py:580-592 | No longer run ends today, and the current streak does not exceed the longest. |
| `Audio.SplitAudio` | cptr/routers/audio.py:141-182 | For every size function the call ends: whole file, or chunks end to end within the limit and at least a second long but the last, or the first stretch of at most five seconds that is too large; each chunk is the first guess or a necessary half. |
| `Audio.ContiguousCovers` | cptr/routers/audio.py:159-179 | Chunks end to end hold every instant of the recording in exactly one chunk. |
| `Audio.FewChunks` | cptr/routers/audio.py:153-179 | There is at most one chunk more than whole seconds. |
| `Audio.ProportionalSplit` | cptr/routers/audio.py:153-182 | When no stretch takes more than its share of the file and the limit allows two seconds, nothing is halved or too large, and all chunks but the last have the guessed length. |
| `Slugs.SlugSpellsName` | cptr/models/workspaces.py:36-38 | A slug has 1 to 80 characters, only letters, digits and single inner dashes, and spells a prefix of what the name spells, or is the fixed word when the name spells nothing. |
| `Slugs.SlugifyIsIdempotentIff` | cptr/models/workspaces.py:36-38 | Slugifying a slug changes nothing if and only if the cut left no dash at its end. |
| `Slugs.NumberedInjective` | cptr/models/workspaces.py:58-62 | Candidates with different serials differ. |
| `Slugs.Crowded` | cptr/models/workspaces.py:55-62 | When the base, the suffixed candidate and the serials before n are taken, n - 1 distinct slugs are. |
| `Slugs.Allocate` | cptr/models/workspaces.py:41-63 | The slug is the first free candidate, not among the existing ones, within 80 characters for fewer than 10^78 slugs, and found in at most as many rounds as there are existing slugs. |
| `Slugs.AllocateSlug` | cptr/models/workspaces.py:354-376 | The allocation from name and identifier: new among all the owner's slugs whenever the suffix does not cut the name's slug, and whenever the answer starts with it. |
| `Slugs.FreshAmongAllIff` | cptr/models/workspaces.py:44-63 | Below ten million slugs, the slug handed out is free whatever the owner's slugs are if and only if the base is a prefix of base plus suffix as cut. |
| `Slugs.SuffixCutsBaseIff` | cptr/models/workspaces.py:55-57 | The suffix leaves the base uncut if and only if both together have at most 71 characters, or the rest of a base of at most 72 repeats the start of the suffix. |
| `Slugs.AllocatedExtendsBase` | cptr/models/workspaces.py:55-63 | When the suffix leaves the base uncut, so does every serial number: the answer starts with the base and does not exist yet. |
| `Slugs.RoomyBaseIsKept` | cptr/models/workspaces.py:55-61 | A base that leaves room for its tail is not cut. |
| `Slugs.SuffixTellsApartIff` | cptr/models/workspaces.py:56-57 | Two identifiers get the same suffix if and only if they agree in their first eight characters, dashes not counted. |
| `Slugs.CutBaseCollides` | cptr/models/workspaces.py:44-57 | For every suffix of eight characters: with the longest slug as base and two slugs taken, the slug handed out is one of them. |

## Left out

- Alias resolution of workspaces and its cache: workspaces are canonical names, one namespace row each; the empty name
  is the owner's global scope.
- Redaction, hashing, tokenising, entity recognition and fact extraction: a record carries its hash, a text is its list
  of tokens, entities and facts are arbitrary functions of the record.
- Limits and order of query answers (2000 and 5000 rows in time travel, 1000 conflict candidates, ranking of search
  results): answers are unbounded maps and sets.
- Timestamps of graph, text and conflict rows, entity descriptions and relation kinds other than the projected one.
- Events, checkpoints, feedback rows, health and compaction reports, vector arithmetic: vectors are kept only as a map
  from memory to the namespace that owns them, with the foreign key of the embeddings table, which the pgvector adapter
  does not have.
- Concurrency inside a job: an index job that reads a record before a forget and writes its rows after it is not
  modelled, and would name a forgotten memory. A rebuild may end after any row, not between its clearings or within a
  row.
- Browser leases, timers, HTTP, authentication, admin routes and database plumbing: nothing of them but the
  transactions.
- Conflicts.EitherSeesIff: for the two scopes a caller can give (`cptr/routers/memory.py:50`), not for other strings.
- Gate.HitsAreSound: speaks of the namespace alone; what a hit misses outside it is Gate.HitIsFreshIff.
- Weights.RepeatedFeedbackConverges: reals, no rounding.
- Ranking.DiscountCapsScore: does not model the rounding of the answer to six digits; features are given, not computed
  from the row.
- Audio.SplitAudio: file names, export and the removal of the last oversized chunk are not modelled; the first guess is
  computed exactly instead of in floating point.
- Usage.GetUsage: tool counts, averages and the daily peak are not modelled; days are ordinals and token counts are
  given.
- Slugs.SlugSpellsName: starts from the lower-cased name; lower-casing is not modelled.
- Slugs.FreshAmongAllIff: for fewer than 10^7 - 2 slugs; beyond, longer serial numbers cut bases of 72 characters, then
  shorter ones.
- Slugs.Allocate: beyond 10^78 - 2 existing slugs the serial number alone can exceed 80 characters.
