# Verified model of the patch engine, the symbol graph and the tree walkers

This project models three linked parts of a code-editing agent and proves what they promise.

**Patch engine.** A plan is a list of changes to files. It is checked for conflicts and split into
sequential groups (`SemanticDiff`, `Conflicts`, `Grouping`, `GroupTheory`), dry-run in memory (`DryRun`) and
applied as a transaction over a file map (`Executor`). Both the dry run and the executor are instances of one
run over per-file texts (`PlanFold`); `PatchTheory` relates executor, dry run and the plain in-order fold of the patches,
and `Regrouping` the plan and its groups, run as one plan or by one executor call each. `AstPatcher`, `Rename` and
`Effectiveness` model the edits themselves, `Pipeline` the executor with the structured patcher plugged in and what one
change then writes, `Refusals` the reason a refused change is given.

**Symbol graph.** `GraphStore` is the mutable node and edge store, `GraphBuilder` the full build with its name
index, `Indexer` the incremental update of one file. `IndexTheory` and `Idempotence` hold the theorems about
whole runs and about repeated updates, `Reindex` those that compare an update with the graph it found. `Bfs` is a theory of
breadth-first search over any graph and `BfsOrder` of the order in which it lists what it finds; `GraphQuery` proves the two
expansions against them. `RepoMap` is the module map and its dependency quotient.

**Tree walkers.** `Syntax` is the tree the parser hands over. `SymbolExtractor` indexes definitions, `IndexCoverage` says
which, `SymbolFinder` locates a definition for patching and is compared with the index, `Containment` is the
innermost-enclosing lookup, `DependencyExtractor` the edge collector on top of it and `DependencyTargets` what its edges lead
to, and `FileUpdate` puts extraction and incremental update together.

`PatchWitnesses`, `EditWitnesses` and `IndexWitnesses` hold the concrete inputs on which a plain reading of the code fails.

## How the source is read

- Code that changes state is a class or a loop proved against a specification function; the theorems are about those functions.
- Calls into code outside the model are function parameters: `Executor.Env` (path resolution and path checks, the parser,
  the Python syntax check, the validator, the line differ, the test for a meaningful append), `AstPatcher.Layout` (indentation
  helpers), `SymbolExtractor.Details` (docstring, type and signature readers), `RepoMap.Naming` and `stem` (file naming).
- A parsed file is a tree of kinds, byte ranges and lines; its text is a string whose positions are the byte offsets.
- Hypotheses on trees say what the Python grammar gives: `BytesNested` and `LinesNested` (children lie in order inside
  their parent), `WellShaped` (a definition's inner definitions are in its body, and a body is a block).

## What turned out false, and the exact condition

- The running maximum `order + 1` does not separate arbitrary conflict lists (`GroupTheory.ArbitraryConflictsNotSeparated`). It
  does for the lists the detector produces, because a file's own list dominates (`GroupTheory.GroupIsRank`).
- Regrouping does not always keep the order of the changes to a file that the plan names in two ways
  (`PatchWitnesses.AliasedFilesRegroupBadly`). It keeps every order, and is invisible to every editing step, exactly if group
  numbers never fall along a path (`Regrouping.PathOrderIff`, `Regrouping.RegroupedRunIff`). Distinct names for distinct
  files suffice (`Regrouping.DistinctNamesOrdered`) and are not needed (`PatchWitnesses.AliasedFilesMayRegroup`).
- One executor call per group is not one call on the plan: the file limit is counted per call
  (`PatchWitnesses.SixFilesOnlyByGroups`), a failing call leaves the earlier groups written
  (`Regrouping.FailingCallKeepsEarlier`), and a call rereads what an earlier one emptied. For the resolver's groups, with
  distinct names for distinct files, `Regrouping.GroupCallsIff` says exactly when the two agree; `Regrouping.SeparateCallsIff`
  says it for any groups whose calls do not restart from an original.
- `patched_content.get(p) or originals[p]` restarts from the original once a file's text has become empty, so the executor
  does not always write the fold of the patches (`PatchWitnesses.EmptiedFileRestarts`; exact condition `PatchTheory.PlainFoldIff`).
- A file listed as modified need not differ. It does after a single applied change (`PatchTheory.OneChangeShows`); for every
  number of applied changes from two on, some plan lists the file with its text unchanged
  (`PatchWitnesses.UndoneChangesAreListed`).
- The executor and the dry run differ when a change has no patch, which the executor passes over and the dry run refuses
  (`PatchWitnesses.MissingPatchIsRefused`), and when the executor falls back to a module append, restarts from an original, or
  writes Python that does not parse, as it may into a `.pyi` file (`PatchWitnesses.BrokenStubIsWritten`). For plans whose
  structured patches all go to Python files this is the exact condition (`PatchTheory.DryRunAgreesIff`); elsewhere a structured
  patch is passed over by the executor and applied by the dry run (`PatchWitnesses.StructuredPatchIsSkipped`).
- An overlap with the positions of an earlier one is to be reported once. The suppression never applies: the detector finds no
  two such overlaps (`Grouping.NotReportedYet`).
- `symbol_not_found` is among the failure reasons, but the fallback takes every missing symbol, so that no change is refused
  for it (`Refusals.MissingSymbolNeverRefuses`).
- Line-based edits take everything before the node on its line: replacing the body of a one-line definition loses its header,
  and deleting the second statement of a line deletes the first (`EditWitnesses.HeaderLost`,
  `EditWitnesses.NeighbourDeleted`). An edit removes only its node exactly if it is not line-based or only blanks stand
  before the node (`AstPatcher.RemovesOnlyIff`).
- Renaming there and back restores the source only if the new name did not occur in the definition before
  (`EditWitnesses.NameAlreadyThere`; exact condition `Rename.RoundTripIff`).
- `_find_symbol_node` documents qualified names but compares the last dotted segment only
  (`EditWitnesses.QualifiedNameNotHonoured`; exact condition `SymbolFinder.IndexedIsFoundIff`).
- Re-indexing an unchanged file twice is not idempotent if one of its dependencies joins two symbols of other files
  (exact conditions `Idempotence.IdempotentIff` and `Idempotence.IdempotentIffAnchored`). The dependencies the extractor
  collects never do (`FileUpdate.FileUpdateIdempotent`), short of a package file `__init__` meeting a row of that name
  (`IndexWitnesses.PackageEdgeDoubles`).
- An incremental update is not a rebuild: edges into the file from other files are lost (`IndexWitnesses.IncomingCallLost`).
  Re-indexing an unchanged file gives back the graph it found exactly if no edge enters the file from another one and its
  dependencies, resolved among its own names first, are the stored edges that start in it (`Reindex.ReindexNeutralIff`, and
  right after a build `Reindex.RebuildIff`).

## Model

| member | source | states |
|---|---|---|
| SemanticDiff.OverlapIsNesting | editing/semantic_diff.py:35-48 | two non-empty names overlap iff the dotted segments of one begin with those of the other |
| Conflicts.DetectSemanticOverlaps | editing/semantic_diff.py:4-32 | reports exactly the pairs of changes to one named file whose symbols overlap, lower position first, in the order of the pairs |
| Conflicts.CountKeys | editing/conflict_resolver.py:23-28 | the dictionary holds, for every counted key that is hit, all positions hitting it in ascending order, and nothing else; its keys are in the order of their first hits |
| Conflicts.KeyConflicts | editing/conflict_resolver.py:23-52 | reports exactly the keys hit by more than one change, each with all its positions, in the order of first hits |
| Conflicts.ConflictSays | editing/conflict_resolver.py:22-66 | what is reported, in terms of the changes alone: all positions of one symbol or of one file where there are several, ascending, or two positions of one named file whose symbols nest, each under its kind |
| Grouping.AssignGroups | editing/conflict_resolver.py:86-100 | the group of a change is the largest order plus one it has in any conflict, 0 if it is in none |
| Grouping.BuildSequentialGroups | editing/conflict_resolver.py:81-109 | the groups are the non-empty buckets of the group numbers, each in plan order |
| GroupTheory.GroupsByNumber | editing/conflict_resolver.py:102-109 | one group for every group number in use, in ascending order, holding the changes of that number in plan order |
| Grouping.ResolveConflicts | editing/conflict_resolver.py:11-78 | valid iff no conflict of the three kinds exists; otherwise exactly all conflicts, by kind and then by positions, and the groups for them |
| Grouping.NotReportedYet | editing/conflict_resolver.py:54-62 | an overlap found is never one of those reported before, so none is suppressed |
| GroupTheory.GroupIsRank | editing/conflict_resolver.py:86-94 | a change's group is 0 if it is alone in its file, else one more than the number of earlier changes to the file |
| GroupTheory.ConflictsSeparated | editing/conflict_resolver.py:81-109 | the positions of any one reported conflict lie in pairwise different groups |
| GroupTheory.ArbitraryConflictsNotSeparated | editing/conflict_resolver.py:87-94 | a conflict list without dominating file lists for which two conflicting changes share a group |
| GroupTheory.ValidIffSeparated | editing/conflict_resolver.py:17-66 | a plan has no conflict iff no file, and no file-less symbol, is changed twice |
| GroupTheory.GroupsPreservePlan | editing/conflict_resolver.py:102-109 | the concatenated groups are a permutation of the plan that keeps the order of the changes to each file |
| GroupTheory.GroupsAreConflictFree | editing/conflict_resolver.py:70-109 | a single group fed back to the resolver has no conflict |
| GroupTheory.OrderKeptIff | editing/conflict_resolver.py:86-109 | the concatenated groups keep the order of the changes of several files taken together iff the group numbers never fall along them |
| PlanFold.AcceptedIsFileFold | editing/syntax_validation.py:124-168 | an accepted run leaves in each file the fold of that file's own changes |
| PlanFold.RejectedInFileFold | editing/syntax_validation.py:138-166 | a rejected run is rejected by some file's own changes |
| PlanFold.SameFileOrderSameRun | editing/patch_executor.py:207-476 | plans with the same change list for every file are accepted or rejected together, with the same texts |
| PlanFold.SameRunsIff | editing/syntax_validation.py:124-168 | two plans have the same outcome under every editing step iff each file's change list is the same |
| PlanFold.UntouchedKept | editing/patch_executor.py:207-476 | a file no change is routed to keeps its text |
| Text.ReplaceChanges | editing/patch_effectiveness.py:131-133 | replacing a first occurrence by a different string always changes the text |
| Effectiveness.MeaningfulDiffLineCount | editing/patch_effectiveness.py:14-26 | the count is at least one iff the texts differ, whatever the differ reports |
| Effectiveness.CountPerOpcode | editing/patch_effectiveness.py:14-26 | opcode by opcode the count grows by the longer of the two sides, and not at all for equal ones |
| Effectiveness.TextSubRejectsExactly | editing/patch_effectiveness.py:114-146 | a substitution is rejected iff the old text is blank or equals the new one; the two later reject branches are unreachable |
| Executor.ExecutePatch | editing/patch_executor.py:145-539 | all or nothing: on failure the file map is unchanged wherever the failure occurs, on success it differs only at the modified files, which hold the texts of the run and are listed in the order of first use; the error code and the counts are those of the run |
| Executor.Rollback | editing/patch_executor.py:461-462 | writing the recorded originals back changes no file |
| Executor.WriteAll | editing/patch_executor.py:519-523 | after the writes each patched file holds its patched text and every other file its old one |
| DryRun.ValidateSyntaxPlan | editing/syntax_validation.py:108-168 | the verdict, the first refusal and the accumulated texts are those of the run over the plan |
| DryRun.ChecksIff | editing/syntax_validation.py:20-168 | a change passes with the text it makes of the accumulated text, else the snapshot's, else the disk's, iff that parses or names no Python file; which of the two refusals it ends in otherwise |
| PatchTheory.ModifiedWasAdmitted | editing/patch_executor.py:213-290 | a file is rewritten only if it exists and a change naming it passed every admission check |
| PatchTheory.SafeguardIff | editing/patch_executor.py:166-200 | a plan is turned away beforehand iff it names more than five files or holds a patch of 200 lines or a deletion without a target, and the first such patch gives the reason |
| PatchTheory.AcceptedWithinLimits | editing/patch_executor.py:167-200 | an accepted plan rewrites at most five files, and holds no oversized patch and no deletion without a target |
| PatchTheory.TextSubWritesIff | editing/patch_executor.py:291-355 | a substitution is written iff it finds its text and changes it into one that, for `.py`, is blank or parses |
| PatchTheory.WritesChangeText | editing/patch_executor.py:252-476 | a single written change differs from the text it read |
| PatchTheory.ListedUnchangedIff | editing/patch_executor.py:519-523 | a file listed as modified has the text its last applied change wrote, and keeping the original takes an earlier applied change |
| PatchTheory.OneChangeShows | editing/patch_executor.py:519-523 | a file listed as modified after at most one applied change has a new text |
| PatchTheory.PlainFoldIff | editing/patch_executor.py:305-307 | an accepted plan leaves the in-order fold of the patches iff no substitution starts from a text that became empty |
| PatchWitnesses.EmptiedFileRestarts | editing/patch_executor.py:305-354 | a two-change plan the executor accepts although the fold of its patches fails |
| PatchWitnesses.UndoneChangesAreListed | editing/patch_executor.py:519-523 | for every n from two on, a plan of n applied changes is accepted with the file listed and its text unchanged |
| PatchWitnesses.BrokenStubIsWritten | editing/patch_executor.py:339-353 | a substitution that breaks a `.pyi` file is written by the executor and refused by the dry run |
| PatchWitnesses.MissingPatchIsRefused | editing/patch_executor.py:207-211 | under any environment a plan of one change without a patch is accepted by the executor and refused by the dry run |
| PatchWitnesses.StructuredPatchIsSkipped | editing/patch_executor.py:288-290 | a structured patch for a file that is not Python leaves the executor's run empty and the dry run's not |
| PatchTheory.DryStepAgrees | editing/syntax_validation.py:20-59 | on a change the executor writes, the dry run writes the same text if the step is clean and refuses it otherwise |
| PatchTheory.DryRunAgreesIff | editing/syntax_validation.py:124-168 | from any accumulated texts, an accepted run whose structured patches go to Python files is accepted by the dry run iff no patch is missing and every written step is clean, and then with the same texts |
| PatchTheory.AcceptedPlanValidatesIff | editing/syntax_validation.py:108-168 | the same for whole plans |
| PatchTheory.PlainPythonRunIsClean | editing/patch_executor.py:252-476 | Python files, no symbol-miss fallback and no blank text make every step clean |
| Regrouping.PathOrderIff | editing/conflict_resolver.py:86-109 | the concatenated groups meet the changes of every path in plan order iff group numbers never fall along a path |
| Regrouping.RegroupedRunIff | editing/conflict_resolver.py:81-109 | one run over the concatenated groups equals the run over the plan under every editing step iff group numbers never fall along a path |
| Regrouping.DistinctNamesOrdered | editing/conflict_resolver.py:41-52 | they never fall where distinct file strings name distinct files |
| Regrouping.RegroupedExecution | editing/conflict_resolver.py:81-109 | under that condition one executor call on the concatenated groups gives the verdict and the texts of the original plan |
| Regrouping.RegroupedValidation | editing/conflict_resolver.py:81-109 | under that condition one dry run over the concatenated groups gives the verdict and the texts of the original plan |
| Regrouping.ResolvedGroupsApart | editing/conflict_resolver.py:81-109 | no group of the resolver holds two changes to one path, where distinct file strings name distinct files |
| Regrouping.SeparateCalls | editing/patch_executor.py:167-200 | one call per group succeeds, none restarting from an original, iff every group keeps the limits and the plain fold of all patches succeeds, and then leaves that fold |
| Regrouping.ApartGroupsNeverRestart | editing/patch_executor.py:305-307 | no call restarts where no group holds two changes to one path |
| Regrouping.SeparateCallsIff | editing/patch_executor.py:145-539 | for any groups: an accepted concatenation runs group by group, no call restarting, iff no substitution of the single run starts from an emptied text, and then to the same files; groups that so run one by one are accepted as a whole iff they keep the limits as a whole |
| Regrouping.GroupCallsIff | editing/patch_executor.py:145-539 | for the plan as listed and the resolver's groups, where distinct file strings name distinct files: an accepted plan runs group by group iff no substitution of it starts from an emptied text, and then to the same files; a plan that runs group by group is accepted as listed iff it keeps the limits as a whole |
| Regrouping.FailingCallKeepsEarlier | editing/patch_executor.py:519-523 | a failing call leaves exactly the groups before it written |
| PatchWitnesses.SixFilesOnlyByGroups | editing/patch_executor.py:167-178 | a plan over six files that is refused as one call and succeeds group by group |
| PatchWitnesses.AliasedFilesRegroupBadly | editing/conflict_resolver.py:41-52 | with two names for one file, a plan that runs as listed and fails in one run over its concatenated groups |
| PatchWitnesses.AliasedFilesMayRegroup | editing/conflict_resolver.py:41-52 | two names for one file whose changes stay in order |
| Rename.RenameIdentifiersInScope | editing/ast_patcher.py:187-214 | the loop computes the splicing of the collected ranges, last range first |
| Rename.OccurrencesAreIdentifiers | editing/ast_patcher.py:194-204 | the collected ranges are the identifiers of the scope that read the old name, in reading order |
| Rename.RenameIsSubstitution | editing/ast_patcher.py:206-214 | descending splicing equals simultaneous substitution of the identifiers, all other text kept in order |
| Rename.RenameLength | editing/ast_patcher.py:206-214 | the length changes by the number of renamed identifiers times the difference of the names |
| Rename.RoundTripIff | editing/ast_patcher.py:187-214 | renaming back restores the source iff the new name did not occur as an identifier of the scope |
| EditWitnesses.NameAlreadyThere | editing/ast_patcher.py:187-214 | patching a parsed one-line definition, its parameter renamed to a name its body uses and back comes with that use renamed as well |
| AstPatcher.FindBlock | editing/ast_patcher.py:161-184 | the counting loop returns a block iff some statement of the kind the target names has it in the field for that kind, and exactly as many earlier statements of the kind have one as the index says |
| AstPatcher.ApplyPatchIff | editing/ast_patcher.py:251-363 | when a symbol-targeted patch applies, by target and action and whether the symbol, its body and the addressed node exist, and which error it ends in otherwise |
| AstPatcher.RenameIsLocal | editing/ast_patcher.py:262-264 | a rename keeps all text outside the symbol |
| AstPatcher.EditIsLocal | editing/ast_patcher.py:251-363 | every symbol-targeted edit keeps all text before the symbol's first line and after its end, less at most one newline |
| AstPatcher.EditEffect | editing/ast_patcher.py:266-363 | per target and action, which node is addressed, which stretch of the source is replaced and by what: insertions replace nothing, line-based edits reach back to the line start, deleting a statement takes its newline |
| AstPatcher.RemovesOnlyIff | editing/ast_patcher.py:306-351 | a replacement or deletion removes only the addressed node, blanks before it and at most a newline iff it is not line-based or only blanks stand before the node on its line |
| EditWitnesses.HeaderLost | editing/ast_patcher.py:328-351 | on a one-line definition, replacing the body loses the header and inserting at its start puts the code before it |
| EditWitnesses.NeighbourDeleted | editing/ast_patcher.py:315-322 | deleting the second of two statements on a line deletes both |
| Pipeline.StructuredWriteIsLocalOrAppends | editing/patch_executor.py:356-476 | a structured change that is written is local to its symbol, or, with the symbol missing, keeps all but trailing whitespace and appends |
| Pipeline.ExecutesIff | editing/patch_executor.py:207-476 | one change is written with a given text iff its path, target and patch are permitted and that text is the substitution, the edit of the symbol or, with the symbol missing, the append behind the last line, differs from the source and passes the checks; when a change is passed over |
| Refusals.AdmitIsFirstFailed | editing/patch_executor.py:62-88 | the reason given before a file is read is that of the first check not passed, in the order of the list |
| Refusals.SubstitutionRefused | editing/patch_executor.py:291-355 | the same for a substitution |
| Refusals.EditRefused | editing/patch_executor.py:408-471 | the same for a structured edit that can be made; the originals are written back iff the validator refuses it |
| Refusals.ImpossibleEditRefused | editing/patch_executor.py:123-136 | which reason a structured edit that cannot be made is given |
| Refusals.MissingSymbolNeverRefuses | editing/patch_executor.py:388-407 | no change is refused because its symbol is missing |
| SymbolExtractor.SymbolList.Visit | repo_index/symbol_extractor.py:126-174 | the recursive walk appends the records of the subtree, in order |
| SymbolExtractor.ExtractSymbols | repo_index/symbol_extractor.py:91-179 | the module record followed by the records of all top-level subtrees |
| SymbolExtractor.ExtractedFromFile | repo_index/symbol_extractor.py:111-179 | every record names its file and has a name |
| SymbolExtractor.EmitFromNodes | repo_index/symbol_extractor.py:126-174 | every record comes from a named definition node, with that node's lines, docstring, type information and signature, a name ending in its own, and the kind its form and scope call for |
| SymbolExtractor.ModuleRecordFirst | repo_index/symbol_extractor.py:111-124 | the module record comes first and is the only one of its kind, unless the file has no stem or is `__init__` |
| IndexCoverage.NamesAreScopes | repo_index/symbol_extractor.py:84-88 | every record is called after the definitions around its node, from outside in |
| IndexCoverage.IndexIsCompleteIff | repo_index/symbol_extractor.py:126-179 | every named definition is recorded exactly once, in source order, iff no nameless definition has named ones below it |
| IndexCoverage.NestedDefinitionsOverlap | repo_index/symbol_extractor.py:84-88 | whatever is recorded from inside a definition has a name nested in its name, so overlap detection sees the nesting |
| SymbolFinder.WantedIsLastSegment | editing/ast_patcher.py:89 | the three-way test on a definition is a comparison with the last dotted segment |
| SymbolFinder.FindSearchesAll | editing/ast_patcher.py:79-116 | for any tree, the search finds a matching definition iff there is one |
| SymbolFinder.FindSymbolIsPreOrder | editing/ast_patcher.py:73-122 | visiting bodies twice changes nothing: the search is one pre-order walk by last segment |
| SymbolFinder.IndexedIsFound | editing/ast_patcher.py:73-122 | every indexed definition is found under its record's name, and is that very node if no other shares its last segment |
| SymbolFinder.IndexedIsFoundIff | editing/ast_patcher.py:73-122 | the node found is the indexed one iff no earlier definition has the same last segment |
| EditWitnesses.QualifiedNameNotHonoured | editing/ast_patcher.py:89 | on a parsed text with two classes and one method name: asked for the second method, the search returns the first |
| Containment.LaminarLookup | repo_index/dependency_extractor.py:29-37 | on nested-or-disjoint spans the lookup returns nothing iff no span covers the line, else the innermost one, the first listed of several equal ones |
| Containment.EmitLaminar | repo_index/symbol_extractor.py:126-174 | spans recorded from a tree whose sibling definitions share no line are nested or disjoint |
| Containment.InnermostInFile | repo_index/dependency_extractor.py:29-37 | for the records of a parsed file the lookup is innermost, the module record included |
| DependencyExtractor.EdgeList.Walk | repo_index/dependency_extractor.py:207-227 | the walk appends the edges of every node of the subtree, parents first |
| DependencyExtractor.ExtractEdgesForFile | repo_index/dependency_extractor.py:230-253 | the edges of a file are those collected from its root |
| DependencyExtractor.NodeEdgesStart | repo_index/dependency_extractor.py:40-204 | each kind of node starts its edges at the class, the enclosing symbol or the module, as its branch says |
| DependencyExtractor.EdgeStartsInnermost | repo_index/dependency_extractor.py:207-253 | every edge but inheritance starts at the innermost record around its node, and at the module only if no record covers it |
| DependencyTargets.CollectedExact | repo_index/dependency_extractor.py:40-253 | an edge is collected iff some node of the file gives it: per relation, which kind of node, which field and whose text is the target |
| DependencyTargets.CollectedInOrder | repo_index/dependency_extractor.py:207-227 | the edges come node by node, parents before children |
| DependencyTargets.ImportEdgesInOrder | repo_index/dependency_extractor.py:40-71 | an import gives one edge per imported name, in order and prefixed by the module, and one to the module itself only for no names |
| DependencyTargets.ControlEdgesInOrder | repo_index/dependency_extractor.py:99-137 | a condition gives one edge per identifier in it and one more per called identifier, in order |
| DependencyTargets.ClassEdgesInOrder | repo_index/dependency_extractor.py:182-204 | a named class gives one edge per base, in order |
| DependencyTargets.CallEdgesInOrder | repo_index/dependency_extractor.py:74-96 | a call gives one edge of either relation |
| GraphStore.GraphStorage.AddNode | repo_graph/graph_storage.py:62-90 | inserts one row under the next id never handed out |
| GraphStore.GraphStorage.AddEdge | repo_graph/graph_storage.py:92-99 | inserts one edge row and nothing else |
| GraphStore.GraphStorage.RemoveNodesForFile | repo_graph/graph_storage.py:150-165 | removes the file's rows and the edges touching them, returns exactly their ids |
| GraphStore.InsertKeeps | repo_graph/graph_storage.py:62-90 | inserting a row keeps ids unique and every edge between two different live rows |
| GraphStore.RemoveFileKeeps | repo_graph/graph_storage.py:150-165 | removal leaves no dangling edge and keeps exactly the rows of other files and the edges among them |
| GraphStore.NeighborsAreJoined | repo_graph/graph_storage.py:167-190 | a row is a neighbour iff an edge of an admitted type leads to it in the given direction |
| GraphBuilder.IndexMeans | repo_graph/graph_builder.py:48-66 | a full name stands for its last symbol, any other name for the first symbol having it as short name or, if its name is dotted and its file's stem is neither empty nor `__init__`, as stem and short name |
| GraphBuilder.AddSymbols | repo_graph/graph_builder.py:50-66 | rows in symbol order under ids 1, 2, ... and the name index over them |
| GraphBuilder.BuildGraph | repo_graph/graph_builder.py:38-98 | the tables of a fresh build; stored, unresolved and nameless edges add up to the extracted ones |
| GraphBuilder.StoredEdgesInOrder | repo_graph/graph_builder.py:69-81 | the stored edges are, in the order of the dependencies and as often, those between the different symbols the dependencies name |
| GraphBuilder.StoredEdgesExact | repo_graph/graph_builder.py:14-35 | an edge is stored iff the two ends of some dependency, stripped, mean its two different rows: full text first and last segment only if the full text means nothing |
| GraphBuilder.BuiltWellFormed | repo_graph/graph_builder.py:50-81 | a fresh build has unique ids and joins two different live rows by every edge |
| Indexer.RepoIndex.UpdateIndexForFile | repo_index/indexer.py:488-586 | replaces exactly the file's records at the end of symbols.json and updates the graph, or changes nothing at all |
| Indexer.UpdateGraph | repo_index/indexer.py:546-583 | the tables after removal, re-insertion and re-resolution of the file's edges |
| Indexer.LocalPriority | repo_index/indexer.py:549-558 | among the file's own names, a full name stands for its last symbol, any other for the first symbol having it as short name |
| Indexer.AddedEdgesExact | repo_index/indexer.py:560-581 | an update adds an edge iff the two ends of some dependency mean its two different rows: the file's own names first, then the first row so called, each by full text before last segment |
| IndexTheory.UpdateKeepsConsistent | repo_index/indexer.py:524-583 | an update keeps the graph well-formed and its rows equal to the records of symbols.json |
| IndexTheory.EveryRunConsistent | repo_index/indexer.py:524-583 | after a build and any sequence of updates: unique ids, no dangling edge, no self-loop, rows and symbols.json agree |
| IndexTheory.UpdateIsLocal | repo_index/indexer.py:546-583 | rows of other files and edges among them keep ids and values; all rows of the file are new |
| IndexTheory.IdsNeverReused | repo_graph/graph_storage.py:62-90 | over any run an id that was handed out never denotes another row |
| Idempotence.SecondUpdate | repo_index/indexer.py:546-583 | the exact tables after a second identical update: the file's rows and edges renamed, foreign edges once more |
| Idempotence.IdempotentIff | repo_index/indexer.py:546-583 | a second update gives the same graph up to fresh ids iff every added edge has an end in the file |
| Idempotence.IdempotentIffAnchored | repo_index/indexer.py:560-581 | the same told from the input: iff no dependency joins two symbols of other files |
| Idempotence.SymbolsIdempotent | repo_index/indexer.py:523-533 | symbols.json is the same list after the second update |
| IndexWitnesses.PackageEdgeDoubles | repo_index/indexer.py:546-583 | a parsed package file whose import doubles an edge between two rows of another file when it is indexed twice |
| Reindex.EdgeSurvivesIff | repo_index/indexer.py:546-583 | a stored edge is still there after an update iff neither end lies in the file |
| IndexWitnesses.IncomingCallLost | repo_index/indexer.py:548 | two parsed files, one calling into the other: the build stores the call and its call-graph twin, and re-indexing the unchanged callee's file loses both |
| FileUpdate.FileUpdateIdempotent | repo_index/indexer.py:488-586 | re-indexing an unchanged parsed file is idempotent up to fresh ids, unless it is a package's `__init__` and some row has that name |
| Reindex.SameGraphIff | repo_index/indexer.py:546-583 | re-indexing an unchanged file gives back the graph it found, up to fresh ids, iff the dependencies resolved now are the stored edges with an end in the file |
| Reindex.ReindexNeutralIff | repo_index/indexer.py:488-586 | for a parsed file: iff no stored edge enters it from another file and its dependencies, resolved among its own names first, are the edges that start in it |
| Reindex.RebuildIff | repo_graph/graph_builder.py:38-98 | the same right after a full build, where the graph found is the rebuild |
| Bfs.WalkIsPath | repo_graph/graph_query.py:151-162 | the walks distance is defined by are the node sequences linked hop by hop |
| Bfs.SearchExact | repo_graph/graph_query.py:151-162 | a queue run lists each node within the depth exactly once, no other, each at its true distance, nearest first |
| BfsOrder.SearchOrder | repo_graph/graph_query.py:90-109 | every node found is first named by a node listed before it, and the nodes are listed in the order of the places that first name them |
| GraphQuery.UndirectedHop | repo_graph/graph_storage.py:167-190 | a hop of the plain expansion is a stored edge read in either direction |
| GraphQuery.DependencyHop | repo_graph/graph_query.py:18-52 | a hop of the dependency expansion is a call edge either way, an outgoing import or an incoming reference |
| GraphQuery.GetAllDependencyNeighbors | repo_graph/graph_query.py:38-52 | every caller, callee, import and referrer once, callers before callees before imports before referrers |
| GraphQuery.ExpandNeighbors | repo_graph/graph_query.py:130-164 | terminates and lists exactly the nodes within the depth, once each, in order of true distance, as the search over undirected hops does |
| GraphQuery.ExpandSymbolDependencies | repo_graph/graph_query.py:55-115 | under both budgets, exactly the first min(all, max(1, min(max_nodes, 1 + max_symbol_expansions))) nodes of the unbudgeted search |
| GraphQuery.FullExpansionExact | repo_graph/graph_query.py:90-109 | the unbudgeted search lists exactly the nodes within the depth, in order of true distance |
| GraphQuery.FullExpansionOrder | repo_graph/graph_query.py:90-109 | at equal distance the rows come in the order of the places that first name them, neighbours by kind |
| GraphQuery.PrefixIsNearest | repo_graph/graph_query.py:90-110 | nothing a budget leaves out is nearer than anything it keeps |
| RepoMap.CollectRows | repo_graph/repo_map_builder.py:79-95 | the three dictionaries after the loop over the rows |
| RepoMap.SymbolIsRecorded | repo_graph/repo_map_builder.py:79-89 | a name is recorded iff it is not empty and some row carries it |
| RepoMap.LastRowRecorded | repo_graph/repo_map_builder.py:79-89 | it is recorded with the line, kind, relative file and module of the last such row |
| RepoMap.ModuleListsItsRows | repo_graph/repo_map_builder.py:90-95 | a module exists iff it has a named row, and lists the names and the files of its rows once each in the order of first occurrence |
| RepoMap.CallsAreLinks | repo_graph/repo_map_builder.py:97-107 | a name lists another iff a stored edge joins two rows so named |
| RepoMap.CallsInOrder | repo_graph/repo_map_builder.py:97-107 | a name lists what its rows lead to once each, in the order of the edges |
| RepoMap.ModuleDependencies | repo_graph/repo_map_builder.py:175-188 | the dictionary loop computes for every module the modules its callers reach |
| RepoMap.DepsAreQuotient | repo_graph/repo_map_builder.py:169-188 | a module depends on another iff both names are non-empty and differ and a stored edge joins two names recorded in them |
| RepoMap.BuildModuleList | repo_graph/repo_map_builder.py:169-201 | one entry per module, ascending, with its files, its first twenty symbols and its sorted, duplicate-free dependencies |
| RepoMap.LessIff | repo_graph/repo_map_builder.py:201 | ascending means: a proper prefix first, otherwise by the first different character |

## Left out

- SQLite, JSON, encodings and newline translation: tables are sequences, files are strings, and reads and writes succeed; a rollback that rewrites line endings is therefore not seen.
- Row order: SQL leaves the order of neighbours and of rows of one name open; the model takes insertion order. The search theory in `Bfs` holds for any order.
- An existing database: `build_graph` is modelled on a fresh store, as the indexer calls it.
- Byte strings: a source is a string and `strip` removes ASCII whitespace; UTF-8 decoding of slices is not modelled.
- The parser, `ast.parse`, the patch validator, the line differ and the regular expressions of `module_append_is_meaningful`: function parameters.
- Indentation (`_get_base_indent`, `_indent_code`): function parameters, since their output only fills the edited stretch.
- Path safety (`_is_forbidden_path`, `_resolve_path`, `_is_non_source_edit_target`): accept or reject predicates on paths.
- The result dictionaries' messages, `file` entries and effectiveness telemetry, the telemetry of `expand_symbol_dependencies`, logging and metrics.
- A patch dictionary without an `action`: `apply_patch` would take it for an insert, but the executor and the dry run refuse it before calling.
- Rename through the executor: its preflight refuses the action, so a rename is only reachable by calling `apply_patch`.
- Who runs the groups: nothing in the repository does; `RunGroups` makes one executor call per group, in order.
- RoundTripIff: takes as a hypothesis that parsing the renamed text gives the same identifiers between the same stretches of text, because the parser is foreign.
- DryRunAgreesIff: leaves out plans with a structured patch for a file that is not Python; the executor passes such a change over and the dry run applies it (`StructuredPatchIsSkipped`).
- FileUpdateIdempotent: is one direction; the exact condition for arbitrary dependencies is IdempotentIffAnchored.
- `find_symbol`, `get_symbols_like` and the other lookups of the store: single queries.
- `_build_dependency_clusters` and the fallback of `build_repo_map` without a database.
- The full repository scan, gitignore rules, thread pool, embeddings and index summary of `repo_index/indexer.py`.
- Planning and generating patches (`editing/diff_planner.py`, the patch generators, `editing/semantic_feedback.py`) and `editing/merge_strategies.py`.
- Planner, evaluation, router, configuration, user interface and agent runtime.
