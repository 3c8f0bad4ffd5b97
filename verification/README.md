# Verification of the journal, the mind maps and their drawings

A Dafny model of the program's hard cores, with proofs.

- The **journal**: entries joined by typed links, flags that open and close, the two searches
  that say which todo an entry hangs from, the gates that ask for evidence before a hypothesis
  or a todo closes, retention, and merging one journal into another (`Branch`,
  `BranchTies`, `Refs`, `RefGrammar`, `Labels`, `Evidence`, `EvidenceForm`, `JournalSpec`,
  `JournalRuns`, `JournalRows`, `Journal`, `JournalMerge`, `JournalMergeRows`).
- The **flow chart**: cycle-closing arrows, layers, waypoints, crossing reduction, packing
  (`FlowCycles`, `FlowLayers`, `FlowRoutes`, `FlowSweeps`, `FlowPlace`, `Flowchart`).
- The **mind-map store**: a forest kept by every operation, reading a map depth first, carrying
  a map into another journal by import and by sharing (`MapStore`, `MapRuns`, `MapSteps`,
  `MapTables`, `MindMaps`, `MapLoad`, `MapOrder`, `MapRows`, `MapChains`, `MapCopy`, `MapRoundTrip`, `MapImport`,
  `MapTrip`, `MapKept`, `MapMerge`, `MapShare`, `MapShared`, `MapSharedKept`,
  `MapCopies`, `MapSharing`).
- The **tree drawing** and the **word wrap** (`TreeLayout`, `TreeShape`, `Wrap`, `WrapLines`).
- **Chunking**, **rank fusion** and the **calendar** (`Chunks`, `Fusion`, `Calendar`).

What changes state in the program is a class here, whose methods are proved equal to functions
on the tables as values; what holds over all runs is proved of those functions. Loops that
compute a value are methods proved against recursive functions, and the theorems are about
those.

Where the code and its own words differ, the model follows the code:

- `mindmap::merge` and `import` write the steps of a chain to `last_insert_rowid()` after an
  insert that may be ignored. Two chains that come with the same steps — possible once journal
  entries were deleted, whose chain signatures are not updated — lose one of them, or make the
  whole copy fail. The theorems say that a map comes over whole exactly when that does not happen.
- `normalize_label` takes one leading mark off. A label typed with two keeps one in the store,
  and a merge, which passes labels through `add` again, changes or refuses it. The theorems say
  exactly which entries cross over, and which unchanged.
- The wrap's ellipsis is missing when the lines are full and only words of one glyph wider than
  a line are left. The program asks for lines of 150 pixels and more at sizes of at most 17, so
  no usual glyph gets it there.
- The evidence count takes references out by replacing text: `#1` goes from `#12` too, if 1 is
  reported first, and leaves a digit; the "and" that joins references stays. So the count is that
  of the text besides its references exactly when no such digits stay, and nine references with
  an "and" between them are 40 characters of evidence. The theorems say when.
- The search for a branch stops at 200 entries; the two searches agree exactly below that.

`dafny verify dfyconfig.toml` checks everything.

## Model

| member | source | states |
|---|---|---|
| `Branch.BranchRootIsNearest` | src/journal.rs:1031-1051 | The upstream search answers a todo at the least distance, and nothing exactly when no todo is upstream (walks that the cap does not cut); which of several it takes is the next row |
| `BranchTies.AnswersForemost` | src/journal.rs:1031-1051 | Over the links alone: the search answers `t` exactly when some shortest walk to a todo ends at `t` and no other shortest walk is, id by id, larger at the first place where the two differ; nothing exactly when no walk leads to a todo |
| `BranchTies.NewestTodoWins` | src/journal.rs:1034-1037 | An entry right under several todos hangs from the newest of them |
| `BranchTies.BranchInTurn` | src/journal.rs:1006-1025 | A branch is listed breadth first from its todo, the entries under one in the order of their ids, whether the cap cuts it or not |
| `Branch.HangsIffReaches` | src/journal.rs:1031-1051 | An entry hangs from some todo exactly when some walk over structural links leads to one |
| `Branch.BranchIdsSound` | src/journal.rs:1006-1025 | Cap or no cap: every entry of a branch answers that todo to the upstream search, once, and the list stays within the cap |
| `Branch.BranchesDisjoint` | src/journal.rs:1006-1051 | The branches of two todos share no entry, even when the cap cuts them |
| `Branch.SearchesAgree` | src/journal.rs:1002-1051 | The downstream walk finds exactly the entries whose upstream search answers the todo, if and only if they fit under the cap |
| `Branch.BranchesPartition` | src/journal.rs:1002-1051 | Under the cap the branches partition the entries that reach a todo |
| `JournalStore.Journal.FindBranchRoot` | src/journal.rs:1031-1051 | The loop over the queue answers as the recursive search the theorems are about |
| `JournalStore.Journal.FindBranchIds` | src/journal.rs:1006-1025 | The same for the downstream walk, asking again for each candidate |
| `JournalStore.Journal.Add` | src/journal.rs:506-589 | Validation, category and tags in their normal form, the 30-day merge with an equal entry, the new row with tags, flags, proofs and links: the whole new state, or an error and no change |
| `JournalStore.Journal.Mark` | src/journal.rs:789-803 | Flags that are not there are put on, open; one that is there stays as it is, open or closed; answers those that were new |
| `JournalStore.Journal.Unmark` | src/journal.rs:809-829 | Flags taken off; `unverified` only with a proof, a todo freely |
| `JournalStore.Journal.CloseWith` | src/journal.rs:857-965 | A close: work items only, all open, through the proof gate and the todo gate in order, the branch of a todo closing along; exact new state and rows taken |
| `JournalStore.Journal.CheckGates` | src/journal.rs:885-939 | The two gates in the order they run, with the resolution to record |
| `JournalStore.Journal.Reopen` | src/journal.rs:1144-1170 | Closed work items open again, all or those named; answers just those |
| `JournalStore.Journal.AddLink` | src/journal.rs:593-609 | A link between two entries, once |
| `JournalStore.Journal.RemoveLinks` | src/journal.rs:612-617 | Links of one kind or of all between two entries go; how many |
| `JournalStore.Journal.SetEvidenceFirst` | src/journal.rs:707-717 | The policy changes and nothing else |
| `JournalStore.Journal.Gc` | src/journal.rs:1745-1762 | Retention by salience and age, with the number of each; what still binds or is open stays; links, tags, flags and proofs cascade |
| `JournalStore.Journal.Delete` | src/journal.rs:1538-1547 | An entry goes with everything that hangs on it |
| `JournalRows.AddGoesThrough` | src/journal.rs:506-545 | A note is taken exactly when it has a text of at most 20 000 characters, something to name it by and a tag that is not empty |
| `JournalRows.AddWrites` | src/journal.rs:545-589 | A note like one of the last 30 days adds its tags, flags, proofs and links to the newest of these; any other becomes an entry of its own, with every field as given |
| `JournalRows.NamedAfterFirst` | src/journal.rs:526-534 | Without a category the first flag, as the journal lists them, names the entry |
| `JournalRows.TextLinks` | src/journal.rs:196-217 | The links of a new entry are those there were and exactly one for each reference of its text to another entry that exists |
| `JournalRows.UnlinkRows` | src/journal.rs:612-617 | Just the links of that kind, or of all kinds, between the two entries are gone |
| `JournalRows.FlagsGoThrough` | src/journal.rs:789-829 | When marking and unmarking are accepted, exactly |
| `JournalRows.MarkRows` | src/journal.rs:789-803 | After a mark every flag named has a row: open since now where there was none, as it was where there was one; no other row changed |
| `JournalRows.UnmarkRows` | src/journal.rs:809-829 | After an unmark none of the flags named has a row, and no other row changed |
| `JournalRows.UnmarkUndoesMark` | src/journal.rs:789-829 | Flags that were not there come off again and leave the journal as it was; only a hypothesis stays, until it is proved |
| `JournalRows.CloseGoesThrough` | src/journal.rs:857-939 | A close goes through exactly when it names open work items, or there are some, and: checked, the hypothesis is proved and the branch of the todo bears a proof; abandoned, a reason is given |
| `JournalRows.CloseWrites` | src/journal.rs:940-965 | Each row a close takes was an open work item and says when, who and which resolution; the flags of the entry that go are exactly the targets; no other row changes |
| `JournalRows.OldestProof` | src/journal.rs:745-757 | Of the entries that prove a hypothesis the one with the least id is named |
| `JournalRows.ReopenRows` | src/journal.rs:1144-1170 | Reopening leaves those rows open since they were first set, and every other row alone |
| `JournalRows.GcTakesLapsed` | src/journal.rs:1745-1762 | Retention takes exactly the medium entries past 365 days and the low ones past 90 that carry no open flag but the passive marks; every other entry, of high salience or younger, keeps all its rows |
| `JournalRows.DeleteTakesOne` | src/journal.rs:1538-1547 | Deleting takes that entry with its rows in every table; every other entry keeps all its rows |
| `Evidence.CountsAll` | src/journal.rs:726-735 | The evidence count of a text with no hash is that of its words, one blank between two |
| `Evidence.CountsBesides` | src/journal.rs:726-735 | Where every hash belongs to a reference, the count is never less than that of the text with its references blanked out, blanks collapsed, and equals it exactly when each reference is reported before any id that its number begins with; `replace` otherwise leaves digits behind |
| `Evidence.ReferencesCountNothing` | src/journal.rs:726-735 | References that are all reported, none of whose numbers begins another, count for nothing |
| `EvidenceForm.DocumentedFormCounts` | src/journal.rs:726-735 | A text in the documented form counts as itself with every mark and id blanked out, unless one of its numbers begins another |
| `EvidenceForm.VerbAndReferences` | src/journal.rs:726-735 | A verb and references count the verb and what joins the references, the "and"s among them |
| `JournalRows.EvidenceBesides` | src/journal.rs:720-743 | An entry whose references carry their mark is evidence exactly when it is live, has 40 characters besides them and, under evidence-first, a proof |
| `JournalRows.ReferencesAreNoEvidence` | src/journal.rs:720-743 | An entry of one verb and references is evidence only if verb and separators alone come to 40 characters: never with few references |
| `JournalRows.AndsAreCounted` | src/journal.rs:726-735 | But "Verifies" with nine references joined by "and" does come to 40, and proves what it verifies |
| `JournalRows.ReferencesLiftNothing` | src/journal.rs:809-903 | A hypothesis verified only by entries of a verb and references that come to less stays open under a checked close and under an unmark |
| `JournalRuns.StepKeeps` | src/journal.rs:448-965 | Every operation keeps the tables consistent: rows on entries that exist, only work items closed, and categories and tags without blank or capital, at least one tag each |
| `JournalRuns.RunKeeps` | src/journal.rs:506-965 | So does every run |
| `JournalRuns.ProofOfFinds` | src/journal.rs:745-757 | The evidence search succeeds exactly when another, live entry verifies this one with enough text (and a proof under evidence-first) |
| `JournalRuns.CheckedCloseNeedsProof` | src/journal.rs:885-903 | A checked close of `unverified` goes through exactly when it is open and proved |
| `JournalRuns.LiftedOnlyByEvidence` | src/journal.rs:719-829 | No operation ends an open `unverified` without evidence, except giving up with a reason, restoring history or deleting the entry; retention never |
| `JournalRuns.RunLiftsOnlyByEvidence` | src/journal.rs:719-965 | Over a whole run: if it was open before and not after, the step that ended it met the gate at that moment |
| `JournalRuns.GcSpares` | src/journal.rs:1745-1762 | Retention spares every entry with an open flag that asks for something |
| `JournalRuns.ClosingKeepsBranches` | src/journal.rs:905-965 | Closing changes no branch |
| `JournalRuns.CloseStaysInBranch` | src/journal.rs:857-965 | Closing a todo — named, or as one of all open items; checked, abandoned or restored — changes no flag outside its branch, no other todo's row and no branch |
| `JournalRuns.CheckedCloseFinishesBranch` | src/journal.rs:905-955 | A checked close of a todo, named or not, had a verified entry with evidence in the branch, and leaves no open work item in the rest but hypotheses that nothing proves |
| `JournalRuns.ReopenUndoesClose` | src/journal.rs:1144-1170 | Reopening what a close took on its entry, named or all, gives back the entry's rows, and the whole journal unless a branch closed along |
| `JournalMerge.MergeEmbeds` | src/journal.rs:1811-1872 | Merging gets through exactly when `add` takes every entry; then each has an image with its text, its category and tags read once more, its proofs and flags (closed ones closed), and links follow. Either way what was copied is such an image and nothing of the destination is lost |
| `JournalMergeRows.MergeIsExact` | src/journal.rs:1811-1872 | After a merge the other journal holds what it held and exactly what the entries that came bring: each new entry with the text, salience, time and name of its source; each tag and proof read once more; each flag, set and closed as there, with who and why; each link between what came, and none else; and the count of new entries is right |
| `JournalMergeRows.EntryBrings` | src/journal.rs:1817-1858 | One entry joins the newest one that says the same and is at most 30 days older, or comes as a new one; which rows that adds, exactly |
| `JournalMerge.MergeInto` | src/journal.rs:1811-1872 | The loop, oldest entry first, does what the specification says, up to the first entry that is refused; a covered source writes nothing |
| `JournalMerge.MergeTwice` | src/journal.rs:1811-1872 | Merging again writes no new entry |
| `JournalMerge.WhoIsPortable` | src/journal.rs:1817-1843 | An entry is refused exactly when its category is a bare mark and no flag names it, or all its tags are bare marks |
| `JournalMerge.CategoryCrosses` | src/journal.rs:448-453 | A stored category crosses over unchanged exactly when it has no leading mark: `add` takes one off again |
| `JournalMerge.TagCrosses` | src/journal.rs:448-462 | The same of each tag |
| `JournalMerge.CopyEntry` | src/journal.rs:1817-1858 | One entry across: added as it is, its closed flags restored as closed with no gate |
| `Refs.Parse` | src/journal.rs:135-193 | The scan over marks gives the references of the specification |
| `Refs.ParseRun` | src/journal.rs:168-188 | A run of ids is read from its first number to its end |
| `Refs.ParseRefsExact` | src/journal.rs:135-193 | No reference twice; those reported are exactly those spelled at a mark or in its run, with the kind of the words before it |
| `Labels.LabelIsPlain` | src/journal.rs:448-453 | `normalize_label` leaves nothing, or a label without blank or capital |
| `Labels.SettlesUnlessMarked` | src/journal.rs:448-453 | Normalising twice is normalising once exactly when the first pass left no leading mark |
| `Labels.TwoMarks` | src/journal.rs:448-453 | Two marks typed leave one in the store, which a second pass takes off: the normal form is not always its own |
| `Labels.LabelsIgnoreCase` | src/journal.rs:448-453 | Labels that differ in capitals alone are one label |
| `RefGrammar.DocumentedFormIsRead` | src/journal.rs:135-193 | Any list of groups in the documented form (any words of one clause, a mark, ids joined by slash, comma or "and") is read back in order, each id with the kind its last three words set, repeats left out |
| `RefGrammar.WordsMean` | README.md:249-257 | Which kind words set: replaces, fixes, implements, verifies, in this order, when one of them is such a verb, punctuation aside; else cites |
| `RefGrammar.ReferencesIgnoreCase` | src/journal.rs:137 | Texts that differ in capitals alone make the same references |
| `FlowCycles.BackEdges` | src/mindmap_flow.rs:141-173 | The search over an explicit stack ends and marks just what the depth-first recursion marks, from the symbols in order and along the arrows of each in order; each marked arrow closes a cycle of unmarked ones; turning the marked arrows leaves no cycle |
| `FlowLayers.Layers` | src/mindmap_flow.rs:203-223 | Every symbol gets the length of the longest path to it, and every arrow goes strictly up |
| `FlowRoutes.RouteArrows` | src/mindmap_flow.rs:224-262 | Each forward arrow, duplicates once, gets one waypoint of its own in each layer it crosses |
| `FlowRoutes.HopsClimb` | src/mindmap_flow.rs:224-262 | Every piece of a cut arrow spans exactly one layer |
| `FlowSweeps.OrderRow` | src/mindmap_flow.rs:271-283 | One row is permuted into the order of the mean place of each symbol's neighbours, its own place where it has none, ties as they were |
| `FlowSweeps.Sweep` | src/mindmap_flow.rs:263-285 | Six passes, down and up in turn: each reads every symbol's index in its row as the pass began, and leaves every row it visits sorted by the mean index of the neighbours, ties as they were |
| `FlowSweeps.NeighboursLead` | src/mindmap_flow.rs:267-285 | After a pass two symbols of a row with one neighbour each, side by side in another row, stand as their neighbours stood when it began: their arrows do not cross |
| `FlowSweeps.LastLayersLead` | src/mindmap_flow.rs:267-285 | Between the last two layers this holds of the final rows themselves |
| `FlowSweeps.MeanBalances` | src/mindmap_flow.rs:278 | The key is the mean: what some neighbours exceed it by the others fall short of it |
| `FlowPlace.PackRow` | src/mindmap_flow.rs:293-318 | A row is packed from the left, each box where its predecessors' mean asks or as near as GAP allows, then shifted by the mean of what is missing, or centred |
| `FlowPlace.PlaceRows` | src/mindmap_flow.rs:286-340 | Every box in its layer, in the middle of a band as thick as its thickest box, LAYER_GAP between bands, GAP within, rows from left to right in their order, the symbol in its place in the box |
| `FlowPlace.ApartDoNotOverlap` | src/mindmap_flow.rs:72-77 | Boxes apart by those gaps do not overlap |
| `Flowchart.LayoutFull` | src/mindmap_flow.rs:185-348 | End to end: the arrows the renderer draws as going back are exactly the marked ones, layers are longest paths, waypoints cross every layer, no two boxes overlap, symbols and waypoints alike; the rows begin in chart order, go through the six passes and are drawn in the order these leave; and the marks are those of the depth-first search |
| `Flowchart.LastArrowsDoNotCross` | src/mindmap_flow.rs:185-348 | Two arrow pieces into the last layer, each the only one its symbol sends there, are drawn so that they do not cross |
| `Flowchart.LayersTellBack` | src/mindmap_flow.rs:471-472 | Comparing layers tells the marked arrows from the others |
| `MindMaps.MindMapTables.Create` | src/mindmap.rs:299-323 | A new map with its topic, which holds the title; the maps stay trees |
| `MindMaps.MindMapTables.Add` | src/mindmap.rs:579-636 | A node with its references and, in a chart, its arrow: whole new state or an error and no change; the maps stay trees |
| `MindMaps.MindMapTables.Edit` | src/mindmap.rs:639-662 | Text and kind of a node; the root's text is the title; the maps stay trees |
| `MindMaps.MindMapTables.MoveNode` | src/mindmap.rs:665-692 | A move, refused with the errors in their order; every map stays a tree |
| `MindMaps.MindMapTables.Climb` | src/mindmap.rs:676-687 | The loop over ancestors ends and says exactly whether the new parent lies in the node's own subtree |
| `MindMaps.MindMapTables.SetNodeState` | src/mindmap.rs:695-709 | State of a node; the root has none; the maps stay trees |
| `MindMaps.MindMapTables.RemoveNode` | src/mindmap.rs:712-725 | A node goes with its whole subtree, arrows and references; answers how many nodes; every map stays a tree |
| `MindMaps.MindMapTables.Cascade` | src/mindmap.rs:39-83 | Deleting along parent links takes exactly the subtree |
| `MindMaps.MindMapTables.AddEdge` | src/mindmap.rs:729-754 | An arrow, found again when it is there, with references; the maps stay trees |
| `MindMaps.MindMapTables.RemoveEdge` | src/mindmap.rs:757-765 | An arrow goes with its references; the maps stay trees |
| `MindMaps.MindMapTables.AddRefs` | src/mindmap.rs:768-782 | References to entries that exist; answers how many were new; the maps stay trees |
| `MindMaps.MindMapTables.RemoveRefs` | src/mindmap.rs:785-805 | References go; answers how many; the maps stay trees |
| `MindMaps.MindMapTables.AddChain` | src/mindmap.rs:814-851 | A chain of distinct entries with a name and a sequence of its own; the maps stay trees |
| `MindMaps.MindMapTables.RemoveChain` | src/mindmap.rs:854-865 | A chain goes by name; the maps stay trees |
| `MindMaps.MindMapTables.SetState` | src/mindmap.rs:868-874 | A map closes or opens; the maps stay trees |
| `MindMaps.MindMapTables.Delete` | src/mindmap.rs:877-883 | A map goes with all its rows; the maps stay trees |
| `MapSteps.MoveMoves` | src/mindmap.rs:665-692 | After a move the node has the new parent, stands behind all its other children and is otherwise as it was; every other row, the subtree and the order of all other children stay |
| `MapSteps.AddAdds` | src/mindmap.rs:579-636 | A new node has the fields given and comes last among the children of the node named, or of the topic; in a chart its arrow is there; all else stays |
| `MapSteps.RemoveRemoves` | src/mindmap.rs:712-725 | Exactly the subtree goes, with arrows and references at it; the siblings keep their order |
| `MapSteps.EditEdits` | src/mindmap.rs:639-662 | An edit changes text and kind of that node as asked, a topic's text being the title too, and nothing else |
| `MapSteps.StateSets` | src/mindmap.rs:695-709 | Only the state of that node changes |
| `MapTables.CreateCreates` | src/mindmap.rs:299-323 | A new map has one node, its topic, which holds the title; all else stays |
| `MapTables.DeleteDeletes` | src/mindmap.rs:877-883 | A map goes with its rows in every table, and no other row goes or changes |
| `MapTables.AddEdgeAdds` | src/mindmap.rs:729-754 | Afterwards exactly one arrow goes from one node to the other with the caption — the one there was, or a new one — and it has the references; all else stays |
| `MapTables.AddChainAdds` | src/mindmap.rs:814-851 | A new chain holds the entries it was made of, in order, under its trimmed name |
| `MapTables.RemoveChainRemoves` | src/mindmap.rs:854-865 | The one chain of that name is gone, and no other |
| `MapTables.ForgetForgets` | src/mindmap.rs:39-83 | An entry deleted elsewhere is gone from references and chains, which keep the rest in order |
| `MapTables.StepGoesThrough` | src/mindmap.rs:299-883 | Which operations are accepted, exactly: a condition on the tables and the arguments for each |
| `MapRuns.StepKeeps` | src/mindmap.rs:299-883 | Every operation keeps every map one tree and everything on it pointing at what exists |
| `MapRuns.RunKeepsTrees` | src/mindmap.rs:299-883 | Over every run each map has one parentless node, its topic with the title, and all parents lead to it |
| `MapRuns.RunKeepsChainsDistinct` | src/mindmap.rs:808-851 | Without deleted entries the sequences that a map's chains hold stay distinct |
| `MapRuns.RemoveCounts` | src/mindmap.rs:712-725 | Removing takes exactly the subtree, and returns its size |
| `MapRuns.ReachesRoot` | src/mindmap.rs:665-692 | From any node the parents end at the topic |
| `MapLoad.Load` | src/mindmap.rs:430-493 | Rows, grouping, the stack of levels: the loaded map of the specification, or that there is none |
| `MapTables.LoadReads` | src/mindmap.rs:430-493 | Every row of the map is read, once, each field as it stands in its row; arrows and chains by id |
| `MapLoad.WalkLevels` | src/mindmap.rs:464-474 | The stack of levels walks as the recursive pre-order |
| `MapLoad.OneOrder` | src/mindmap.rs:433-434 | ORDER BY ord, id has one result |
| `MapOrder.LoadGivesTheTree` | src/mindmap.rs:457-474 | `load` gives every node of the map once, parents first, siblings in row order, the topic first |
| `MapOrder.SubtreesTogether` | src/mindmap.rs:457-474 | Depth first: the nodes of a subtree follow its root without a gap |
| `MapCopy.RenumberMap` | src/mindmap.rs:990-1003 | References pass through the map of entries, a chain that loses a step goes whole |
| `MindMaps.MindMapTables.Import` | src/mindmap.rs:892-969 | The whole import, or nothing: new map row, nodes, arrows, chains and references; already imported is left alone |
| `MapTrip.ImportRoundTrip` | src/mindmap.rs:892-1003 | A loaded map, renumbered and imported, loads again as the same map — same sequence, parents, kinds, states, arrows, the mapped and known references, exactly the chains whose steps all came along — if and only if no two of those chains come with the same steps; otherwise the import fails or all but the chains is the same |
| `MapTrip.BackMeansApart` | src/mindmap.rs:955-966 | If all chains came back as they were, no two had the same steps: the second insert would have been ignored |
| `MapCopies.ImportAdds` | src/mindmap.rs:892-969 | An import adds one map with rows of its own; nothing that was there changes but that steps may be added to chains, and not even that when the chains that come differ; a map already imported leaves all as it is |
| `MapTrip.FreshComeApart` | src/mindmap.rs:808-851 | For a map of a run without deleted entries, renumbered one to one, the chains do come apart |
| `MapChains.PutChainsKeep` | src/mindmap.rs:955-966 | Whatever inserts are ignored, names and sequences stay unique in a map, steps there were stay, and every new row is one that was wanted |
| `MapChains.ApartAreWritten` | src/mindmap.rs:955-966 | Chains that differ in name and sequence are all written, as they are |
| `MapChains.PutChainIgnored` | src/mindmap.rs:955-966 | An ignored insert adds no row; its steps go to the row last given out, and where that is no chain the copy fails |
| `MapChains.LastUnread` | src/mindmap.rs:955-966 | The rowid given out before the first chain is never read |
| `MapTrip.StayApart` | src/mindmap.rs:990-1003 | A renumbering that is one to one keeps different chains different |
| `MapRoundTrip.WalkTracks` | src/mindmap.rs:464-474 | Two walks over matching groups match, node for node |
| `MapKept.ImportKeeps` | src/mindmap.rs:892-969 | An import of any one tree that goes through keeps every map of the journal a tree, ignored inserts or not |
| `MapKept.ImportKeepsTrees` | src/mindmap.rs:892-969 | So does importing what `load` gave |
| `MapMerge.PassProgresses` | src/mindmap.rs:1042-1078 | In a tree every pass of the retain loop copies something, in whatever order the rows come |
| `MapMerge.NodesMerged` | src/mindmap.rs:1042-1078 | The loop ends with every node copied, under the copy of its parent, on new and distinct ids |
| `MapMerge.CopyNodes` | src/mindmap.rs:1042-1078 | The retain loop as it runs |
| `MapShared.ShareStands` | src/mindmap.rs:1015-1125 | One shared map: its tree stands in the other journal, a bijection of nodes with arrows and references and no more; the chains that come whole stand too, and nothing else changed, if and only if no two of them come with the same steps |
| `MapShared.FreshSharedApart` | src/mindmap.rs:808-851 | In a run without deleted entries they never do, where different entries have different numbers |
| `MapCopies.StandsAsItWas` | src/mindmap.rs:1015-1125 | What it means that a map stands in another journal, field by field: each node under the copy of its parent with the same kind, text, state, place, time, author and mapped references; each arrow between the copies of its ends; each chain with its mapped steps in order; and no other row |
| `MapCopies.ShareCopies` | src/mindmap.rs:1015-1125 | A share that goes through gives just that, its chains included when no two of them come with the same steps |
| `MapShared.ShortenedClash` | src/mindmap.rs:1105-1125 | They can after a deletion: of the chains 1, 2 and 1, 3, once 2 and 3 are deleted, only one can stand |
| `MapShared.SecondIsLost` | src/mindmap.rs:1115-1125 | What becomes of the other: lost in silence, or the whole copy fails, by the last rowid of the steps |
| `MapSharedKept.ShareKeepsTrees` | src/mindmap.rs:1008-1130 | Sharing keeps every map of the journal a tree, chains that clash or not |
| `MapShared.ArrowsApart` | src/mindmap.rs:1086-1098 | No two copied arrows are alike, so no insert is ignored |
| `MapShare.TreeStandsOn` | src/mindmap.rs:1008-1130 | A shared map's tree stays while later maps are shared |
| `MapShare.StandsOn` | src/mindmap.rs:1008-1130 | And the whole map does, as long as no steps go astray |
| `MapSharing.MergeMaps` | src/mindmap.rs:1008-1130 | All maps or none: the trees of all come to stand, every map of the destination stays a tree, and there only steps of chains could change. When the chains of every map come apart it goes through and nothing changes at all; all maps stand whole exactly then |
| `TreeLayout.Layout` | src/mindmap_svg.rs:284-385 | Every node drawn once at its size, topic at the centre; boxes of one column keep V_GAP, all others H_GAP: no two overlap; and the boxes are the picture that the next rows describe |
| `TreeShape.PictureIsTidy` | src/mindmap_svg.rs:313-385 | The picture is the topic with a wing on each side, centred on it; the children are dealt in order, each to the shorter side, the first to the right; in a wing each node stands in the middle of its band, and its children below one another in order, V_GAP between bands |
| `TreeShape.PlacedTidy` | src/mindmap_svg.rs:357-376 | The boxes of a subtree reach from one end of its band to the other, the node in the middle, children in order: bands are no higher than they need be |
| `TreeShape.ColumnsMeet` | src/mindmap_svg.rs:346-355 | Boxes of one column share their middle; each column begins exactly H_GAP beside the widest box of the one before |
| `TreeLayout.PlacedInBand` | src/mindmap_svg.rs:357-376 | Each subtree stays inside its own band |
| `TreeLayout.PlacedColumned` | src/mindmap_svg.rs:357-376 | Boxes of one subtree at the same depth keep V_GAP |
| `TreeLayout.EdgesGrow` | src/mindmap_svg.rs:346-355 | Columns of one side are H_GAP apart |
| `TreeLayout.SidesApart` | src/mindmap_svg.rs:346-355 | Left and right lie on their own sides of the topic |
| `TreeLayout.FindWidest` | src/mindmap_svg.rs:326-345 | The stack finds the widest node of every column |
| `TreeLayout.SidesBalanced` | src/mindmap_svg.rs:313-323 | Each child to the shorter side: the sides never differ by more than the tallest subtree |
| `TreeLayout.ClearDoNotOverlap` | src/mindmap_svg.rs:705-708 | Boxes with those gaps do not overlap |
| `Wrap.WrapText` | src/mindmap_svg.rs:140-212 | The greedy loop with running widths gives the lines of the specification |
| `WrapLines.WrapIsGreedy` | src/mindmap_svg.rs:140-186 | The words of any text, cut only where one is wider than a line, fill the lines in order with exactly one blank between two, and each line with one blank and the first piece of the next is wider than the limit; the first MAX_LINES are shown |
| `WrapLines.FittingWords` | src/mindmap_svg.rs:140-194 | When every word fits a line none is cut, and the words of the lines are those of the text whenever they are no more than MAX_LINES |
| `WrapLines.ShortenIs` | src/mindmap_svg.rs:194-206 | The ellipsis takes away no more characters than it needs |
| `Wrap.AtMostMaxLines` | src/mindmap_svg.rs:138-212 | One to MAX_LINES lines, whatever the text and the font |
| `Wrap.LinesFit` | src/mindmap_svg.rs:138-212 | No line wider than the limit, when every glyph and the ellipsis fit |
| `Wrap.LostIff` | src/mindmap_svg.rs:138-212 | For every text and all widths: text is lost without an ellipsis exactly when the words fill the lines and each word left is one glyph wider than a line (an ellipsis of the text's own at the end aside); else every non-blank character is kept, or the last line ends in an ellipsis and the kept text is a prefix |
| `Wrap.NothingLost` | src/mindmap_svg.rs:138-212 | So nothing is lost without an ellipsis where every glyph fits the line |
| `Wrap.WideGlyphsAreLost` | src/mindmap_svg.rs:167-188 | An input of the other kind: seven words of one wide glyph |
| `Chunks.ChunkText` | src/ingest.rs:79-104 | Stitching gives the text back; ordinals from 0; no chunk over the window |
| `Chunks.ChunkPages` | src/ingest.rs:114-146 | Every page can be stitched from its own chunks, ordinals run through the document |
| `Chunks.StitchWindows` | src/journal.rs:2049-2060 | Stitching undoes any sliding window, whatever its size and overlap |
| `Chunks.StitchChunks` | src/journal.rs:2049-2060 | The loop that skips the repeated part |
| `Chunks.WindowsOverlap` | src/ingest.rs:79-104 | Each window starts with the last characters of the one before; only the last is short |
| `Chunks.Headings` | src/chunker.rs:70-119 | All heading positions and only those, in order |
| `Chunks.SectionsAreTheText` | src/chunker.rs:122-156 | The sections are the text cut at its headings: nothing lost, nothing repeated |
| `Chunks.SectionsHoldNoHeading` | src/chunker.rs:122-156 | A heading stands only where a section begins |
| `Chunks.PiecesAreTheSection` | src/chunker.rs:136-153 | Each section can be stitched from its chunks, each within the cap |
| `Chunks.StructuralChunk` | src/chunker.rs:51-62 | Cut at headings when there are any, else exactly as the plain window; ordinals from 0; no chunk empty or over the cap |
| `Fusion.Rrf` | src/journal.rs:1680-1690 | Each id of the union once, with the sum of its reciprocal ranks, by score and then id |
| `Fusion.BetterComesFirst` | src/journal.rs:1680-1690 | An id that stands no lower in both lists comes first |
| `Fusion.Dominates` | src/search.rs:350-388 | No worse in both lists and present: a strictly higher score |
| `Fusion.RrfCommutes` | src/journal.rs:1680-1690 | Swapping the lists changes nothing |
| `Fusion.OneRanking` | src/journal.rs:1688-1690 | The order is the only one |
| `Fusion.Fuse` | src/search.rs:350-388 | The fused hits, sorted; each says what either list said; truncation drops no id that scores above a kept one |
| `Calendar.FromDaysIsTheCalendar` | bench/runner.rs:280-300 | For every day from 1970 on the closed form is the date reached by walking day by day, and a valid date |
| `Calendar.YearFound` | bench/runner.rs:290-293 | The year of the era, from any day of it |

## Left out

- Text: blanks, letters and lower case are the ASCII ones; the original uses Unicode classes.
- Geometry: exact reals stand for f64, and a box is any size given; fonts, colours and SVG text are outside.
- Chart drawing: rows of box sizes come in as they were measured; ports, gates and the path drawing are outside.
- Flag and label spelling: flags, saliences, kinds, layouts and states are values of their types; aliases and their errors are left out (categories and tags are texts, and normalised).
- Reminders, ownership checks, view tokens, agent and session columns: they do not meet the properties here.
- `branch`, `related`, `agenda` and other read-only reports: only more of the same searches.
- Full-text and vector search: only the fusion of their results is here, and the final ordering of deprecated hits is not.
- SQLite: tables are maps and sets, a new row takes the next rowid, cascades are written out; sha256 stands for the body itself.
- A merge may close a flag that the destination has open, when the source had it closed; `Grows` says so by keeping only closed rows as they were.
- MapSharing.MergeMaps: asks that mapped entries exist in the destination, as `merge_into` makes sure; the last rowid of the table of steps comes in as a number.
- MapMerge.CopyNodes: a node insert that fails is skipped by the program; on the tables as they are none can fail.
- MapRuns.RunKeepsChainsDistinct: only for runs without deleted entries, because the stored signature is not updated then.
- Branch.BranchesPartition: only while no walk meets the cap of 200; `SearchesAgree` says exactly when.
- WrapLines.WrapIsGreedy: asks for glyph widths that are not negative, as the advances of a font are; `LostIff` needs no such thing.
- Evidence.CountsBesides: texts in which every hash belongs to a reference, or (`CountsAll`) with no hash at all; a hash of another kind is not covered.
- Loaded references are lists by id, read one query each; the model reads them as one ordered list.
- The mind-map tables hold entries as a set of ids; that both halves of a journal share one entry table is not modelled.
- `rrf_fuse` may order equal scores in any way; the contract leaves it open, the body orders them by id.
- Files, the daemon, import of other formats and everything else of the program are outside.
