# Verified models of the qualification, publication and graph-analysis scripts

This project models the algorithmic core of five scripts and proves what they promise, for every input and for
every run.

**The retrieval oracle** (`scripts/body_qualification_metrics.py`). An observation describes a cohort of
functions, a score for every unordered pair of them, cached vectors, and the families of near-duplicates a
retrieval backend reported. `Observation.dfy` decides which observations are valid; `IncrementalRuns.dfy` compares
two runs and proves what survives along any chain of runs; `ThresholdGraph.dfy` finds connected components with an
explicit stack; `Oracle.dfy` accepts a reported family list exactly when it matches the components of the threshold
graph; `ColdParity.dfy` compares a warm run with a cold rebuild and proves that a threshold margin of more than three
tolerances makes the family comparison redundant; `MarginTightness.dfy` gives two observations that show that three is
the exact bound.

**Owned publication** (`scripts/body_qualification_io.py` and `_publish` in `scripts/benchmark_callee_context.py`).
`FileSystem.dfy` is a filesystem of inodes, directory entries and open descriptors in which every call may fail and
other processes act before every call. `OwnedFiles.dfy` and `OwnedRuns.dfy` say what each single transition of a
publisher may do; `OwnedWork.dfy` (class `OwnedWork`) and `ReportPublication.dfy` prove it for whole runs: the private
file is a new one, it is visible only when complete and under the name the path leads to, no report or marker of
somebody else is replaced or removed, every descriptor is closed exactly once. A contract about "every intermediate
state" quantifies over `steps`, the record of our own transitions; `calls` records the outcomes of `os.fstat` and what
`os.fsync` made durable.

**Evaluation of controls** (`scripts/benchmark_callee_context.py`). `TieAwareRanking.dfy` proves that the closed form
for precision at every budget is the average over all orderings by descending score; `ControlSummary.dfy` says what
every number of the summary counts and that none depends on the order of the pairs; `Jaccard.dfy` proves that one minus
the reported score is a metric; `ControlManifest.dfy` that accepted manifests are well-formed pair graphs.

**Graph aggregates** (`scripts/comprehensive_graph_analysis.py`). `ModuleNames.dfy` says which files count and to which
module a path belongs; `ModuleCoupling.dfy` and `GraphAggregates.dfy` build
the graph, in which parallel rows collapse and the last one wins, and prove that the separately written aggregates
agree.

**Two exact algorithms.** `NestedFunctions.dfy` is the stack-carrying syntax-tree visitor of
`scripts/dead_code_triage.py`, and `WorkloadGenerator.dfy` the modular pair generator of
`scripts/benchmark_graph_similarity_evaluation.py`.

`Wrappers.dfy`, `FiniteSets.dfy`, `Sorting.dfy`, `Selections.dfy`, `Tables.dfy`, `Counting.dfy` and `RealProducts.dfy` hold what these
share.

## Reading the contracts

- A validator or comparison that raises in the script returns `false` or `None` here, and its contract is an
  if-and-only-if with a ghost predicate written without the loops (`ValidObservation`, `ReportMatches`, `WellFormed`).
  The executable code does not call these predicates: it is written out as the script has it.
- `Selects(source, positions, picked)` says what a list comprehension with a condition returns: the elements at exactly
  these positions, in order.
- Every call on the filesystem is answered, and `outcomes.refusals` counts the refused ones. A call is refused because
  the system failed (`outcomes.faults` grows) or because of what the call found, and its contract says which.
  `Enter`, `Write`, `MoveSource`, `PublishMarker` and `Publish` raise exactly when a call was refused or an argument is
  malformed.
- `Guard(mine, names, still)` bounds the other processes: they do not write the run's private file (`mine`), may
  remove or redirect the run's `names` but not point them at the private file, and leave the entries in `still` alone.
  `still` is a parameter, so each contract holds for every amount of interference.
- `Plan` names the private file, its temporary and public name, and the bytes. `OwnStep` is what one transition may
  do: touch only these, show the public name only with the complete bytes (`Visible`), and change the public name only
  by the rename (when replacing) or by the link and its undoing (when publishing a fresh report). `Born` says that the
  private file and its temporary name did not exist before.
- Three expected properties hold only under a condition. A step of `write` is atomic (`Atomic`: the target is left
  alone or comes to name the complete file) exactly when it leaves the target alone or the rename is safe in the state
  it starts from (`RenameSafe`: the temporary still is ours, or already is the target's file); `Write` states this of
  every step of every run, and `RenameRace` is a run in which another process makes the rename unsafe. `move_source`
  spares an existing destination exactly when `MoveSafe` holds right before the rename; `MoveSource` states this of
  every run, and `MoveRace` is a run in which it fails. The edge total in the analysis metadata differs from the
  graph's edge count: `EdgeTotalsDiffer` is such an input, and `EdgeTotals` says exactly when they agree.

## Model

| member | source | states |
|---|---|---|
| `Observations.UniverseFacts` | scripts/body_qualification_metrics.py:235 | `combinations(range(n), 2)` lists each pair i<j once, in order, n(n-1)/2 of them |
| `Observations.SortedUniverse` | scripts/body_qualification_metrics.py:252-253 | sorting and comparing with the universe succeeds exactly when every unordered pair is listed once |
| `Observations.CoveringsPermute` | scripts/body_qualification_metrics.py:235-253 | two exact coverings of the same cohort are permutations of each other |
| `Observations.ExpectedCohort` | scripts/body_qualification_metrics.py:148-180 | the expected cohort exists exactly when every unit is well formed, and describes unit k at position k |
| `Observations.CheckCohort` | scripts/body_qualification_metrics.py:182-213 | accepts exactly when both backends describe the captured units under pairwise different ids and locations |
| `Observations.CheckVectors` | scripts/body_qualification_metrics.py:215-233 | accepts exactly when there is one row per input hash, within the limits, covering every active input |
| `Observations.CheckPairs` | scripts/body_qualification_metrics.py:234-260 | accepts exactly when every unordered pair has one score, in [-1, 1] |
| `Observations.CheckConfiguration` | scripts/body_qualification_metrics.py:59-126 | accepts exactly the valid manifests, options, counters and profiles, written out field by field |
| `Observations.CheckFamilySizes` | scripts/body_qualification_metrics.py:127-144 | accepts exactly family lists within the limits on number and size |
| `Observations.ValidateObservation` | scripts/body_qualification_metrics.py:51-260 | accepts exactly the valid observations |
| `SourcePaths.JoinSplit` | scripts/body_qualification_io.py:23-24 | joining the parts of a path gives the path back, and no part contains a slash |
| `SourcePaths.SplitJoin` | scripts/body_qualification_io.py:23-24 | splitting the join of slash-free parts gives the parts back |
| `SourcePaths.SourcePartsExact` | scripts/body_qualification_io.py:23-38 | a path is accepted with parts p exactly when p are plain components and the path is their join |
| `IncrementalRuns.Scores` | scripts/body_qualification_metrics.py:263-273 | refuses exactly when identical inputs got different scores; otherwise the table holds the score of every input pair |
| `IncrementalRuns.PositionsHaveRow` | scripts/body_qualification_metrics.py:235-253 | any two positions have a score row between them |
| `IncrementalRuns.RowsExactly` | scripts/body_qualification_metrics.py:263-273 | an input pair is scored exactly when both inputs are present, a self-pair only when its input is duplicated |
| `IncrementalRuns.VectorTable` | scripts/body_qualification_metrics.py:290-291 | the vector dictionary has exactly the listed hashes and leads from each to its row |
| `IncrementalRuns.UnitsOf` | scripts/body_qualification_metrics.py:285-286 | the units of one file: those at exactly the positions with that file, in manifest order |
| `IncrementalRuns.CheckUnits` | scripts/body_qualification_metrics.py:283-288 | accepts exactly when, for every file with an unchanged digest, the units at its positions in the two manifests are the same list |
| `IncrementalRuns.CheckVectors` | scripts/body_qualification_metrics.py:289-293 | accepts exactly when shared inputs keep vector bytes and spans |
| `IncrementalRuns.CheckScores` | scripts/body_qualification_metrics.py:297-300 | accepts exactly when all rows with the same input pair in both runs have the same score |
| `IncrementalRuns.ComparePairs` | scripts/body_qualification_metrics.py:294-303 | succeeds exactly on agreeing scores, and then counts k(k-1)/2 pairs plus the shared duplicates for k shared inputs |
| `IncrementalRuns.CompareUnchanged` | scripts/body_qualification_metrics.py:276-307 | succeeds exactly when both observations are valid and nothing shared drifted, and reports the exact counts |
| `IncrementalRuns.SharedKeys` | scripts/body_qualification_metrics.py:294-297 | the compared keys are all pairs of distinct shared inputs and the self-pairs of inputs duplicated in both: none is skipped |
| `IncrementalRuns.CoverageCount` | scripts/body_qualification_metrics.py:297-303 | the size of the intersection of the two key sets |
| `IncrementalRuns.CoverageBounds` | scripts/body_qualification_metrics.py:301-303 | `shared_input_pairs` lies between k(k-1)/2 and k(k+1)/2 |
| `IncrementalRuns.ChainKeepsVectors` | scripts/body_qualification_metrics.py:276-293 | along any chain of accepted comparisons an input present throughout keeps vector bytes and spans from first to last |
| `IncrementalRuns.ChainKeepsScores` | scripts/body_qualification_metrics.py:276-300 | along any such chain two distinct inputs present throughout keep their pair score from first to last |
| `ThresholdGraph.Explore` | scripts/body_qualification_metrics.py:404-409 | with repetitions on the stack allowed, the search ends with exactly the vertices connected to the root |
| `ThresholdGraph.Smallest` | scripts/body_qualification_metrics.py:404 | the least element |
| `ThresholdGraph.Components` | scripts/body_qualification_metrics.py:401-410 | the groups are exactly the connected components of the non-isolated vertices, pairwise disjoint |
| `ThresholdGraph.ComponentSplitsClosed` | scripts/body_qualification_metrics.py:410 | `remaining` stays closed under adjacency when a component is removed |
| `ThresholdGraph.ReachSetIsComponent` | scripts/body_qualification_metrics.py:403-410 | what is reached from a non-isolated vertex is a component |
| `ThresholdGraph.ComponentsMeet` | scripts/body_qualification_metrics.py:403-410 | components that share a vertex are equal |
| `ThresholdGraph.ListingUnique` | scripts/body_qualification_metrics.py:403-413 | two component listings of the same graph correspond one to one |
| `ThresholdGraph.ListingReordered` | scripts/body_qualification_metrics.py:403-413 | any reordering of a component listing is one |
| `ThresholdGraph.EdgeInOneComponent` | scripts/body_qualification_metrics.py:411-413 | every matching edge lies inside exactly one component |
| `ThresholdGraph.EdgeConservation` | scripts/body_qualification_metrics.py:411-413 | the component edge counts sum to the number of matching edges |
| `ThresholdGraph.ComponentEdgeBounds` | scripts/body_qualification_metrics.py:412-413 | a component C has at least two vertices and between \|C\|-1 and \|C\|(\|C\|-1)/2 edges |
| `Oracle.BuildGraph` | scripts/body_qualification_metrics.py:394-400 | the edges are exactly the cross-file pairs with score at least 0.9, once each, and `neighbors` is their symmetric adjacency |
| `Oracle.AdjacencyAddEdge` | scripts/body_qualification_metrics.py:398-399 | adding both directions keeps the adjacency of the edges |
| `Oracle.Measure` | scripts/body_qualification_metrics.py:412-413 | the count, maximum and minimum of the scores of the edges inside a group |
| `Oracle.ShapeUnique` | scripts/body_qualification_metrics.py:412-413 | count and extrema of a component are determined by the graph |
| `Oracle.MeasureComponents` | scripts/body_qualification_metrics.py:403-413 | the dictionary holds one measured entry per component, under pairwise different keys |
| `Oracle.GroupKeyInjective` | scripts/body_qualification_metrics.py:194-208 | distinct components never collide as dictionary keys, since ids were validated distinct |
| `Oracle.KeysApart` | scripts/body_qualification_metrics.py:411 | two different components never measure to the same key |
| `Oracle.IndexInputs` | scripts/body_qualification_metrics.py:415 | the index leads from every id to a member with that id |
| `Oracle.CheckFamily` | scripts/body_qualification_metrics.py:416-436 | accepts exactly the families of current, distinct members with plausible count and extrema |
| `Oracle.ReadFamilies` | scripts/body_qualification_metrics.py:414-437 | succeeds exactly when all families are acceptable and their id sets differ, and tabulates them |
| `Oracle.CompareShapes` | scripts/body_qualification_metrics.py:438-443 | accepts exactly when the keys and counts are the same and the extrema within 1e-6 |
| `Oracle.MatchAgrees` | scripts/body_qualification_metrics.py:438-443 | a report that matches the components passes the comparison |
| `Oracle.AgreementMatches` | scripts/body_qualification_metrics.py:438-443 | a report that passes is in one-to-one correspondence with the components |
| `Oracle.ReportDecided` | scripts/body_qualification_metrics.py:414-443 | the checks on families and the comparison together hold exactly when the report matches |
| `Oracle.CheckReport` | scripts/body_qualification_metrics.py:394-443 | acceptance is exact: same members, same edge counts, extrema within 1e-6, one family per component |
| `Oracle.ComponentLimit` | scripts/body_qualification_metrics.py:130 | there are at most n//2 components |
| `Oracle.MatchWithinBounds` | scripts/body_qualification_metrics.py:127-144 | a matching report is never refused by the limits on family number and size |
| `Oracle.TrueReportAccepted` | scripts/body_qualification_metrics.py:127-144 | the true component list, in any family and member order, matches and is within the limits |
| `Oracle.CheckCache` | scripts/body_qualification_metrics.py:380-385 | accepts exactly when the observed rows of all active inputs agree with the cache |
| `Oracle.CheckRequested` | scripts/body_qualification_metrics.py:388-393 | accepts exactly when every requested score is within the tolerance of the dense one |
| `Oracle.DenseEdges` | scripts/body_qualification_metrics.py:387-397 | the dense threshold graph is the set of cross-file pairs whose vectors have cosine at least 0.9; clipping moves no pair across |
| `Oracle.DenseRequested` | scripts/body_qualification_metrics.py:387-393 | the requested scores agree with the dense matrix exactly when each is within 1e-6 of the cosine of its two vectors, or of the nearer end of [-1, 1] |
| `Oracle.Margin` | scripts/body_qualification_metrics.py:444-448 | the least distance from 0.9 over cross-file pairs, none when there is no such pair |
| `Oracle.GlobalOracle` | scripts/body_qualification_metrics.py:370-463 | passes exactly on valid observations whose vectors, scores and families agree with the dense graph; its edge count is the number of cross-file pairs with cosine at least 0.9, every requested score is close to the cosine, and the margin is the least distance from the threshold |
| `ColdParity.OutlinesCompare` | scripts/body_qualification_metrics.py:495-502 | two family outlines are permutations of each other exactly when the graphs have the same components with the same edge counts |
| `ColdParity.DenseScoresClose` | scripts/body_qualification_metrics.py:388-393 | three tolerances bound the distance of the two dense scores of one pair |
| `ColdParity.MarginKeepsGraph` | scripts/body_qualification_metrics.py:394-400 | a warm margin above three tolerances makes the two threshold graphs identical |
| `MarginTightness.MarginIsTight` | scripts/body_qualification_metrics.py:466-502 | two observations with caches that meet every hypothesis of `MarginStability` except that the margin is exactly three tolerances, and whose threshold graphs and family lists differ |
| `ColdParity.SameKeySets` | scripts/body_qualification_metrics.py:481-484 | the key-set check cannot fail once the unit manifests agree |
| `ColdParity.ScoresClose` | scripts/body_qualification_metrics.py:485-493 | accepts exactly when all scores of the same input pair are within the tolerance |
| `ColdParity.VectorsClose` | scripts/body_qualification_metrics.py:487-493 | accepts exactly when the active vectors are within the tolerance in every coordinate |
| `ColdParity.GroupsDecide` | scripts/body_qualification_metrics.py:495-502 | for runs that pass the oracle, the family comparison decides whether the dense graphs have the same components and counts |
| `ColdParity.CompareCold` | scripts/body_qualification_metrics.py:466-508 | succeeds exactly when the subject is the same, both runs pass the oracle, the numbers are close and the components agree |
| `ColdParity.MarginStability` | scripts/body_qualification_metrics.py:466-502 | with both runs accepted, close numbers and a margin above three tolerances, the graphs are identical and the final comparison cannot fail |
| `FileSystems.FileSystem.CreateExclusive` | scripts/body_qualification_io.py:241-246 | succeeds only on an unused name, which then names a new empty file behind a new descriptor |
| `FileSystems.FileSystem.WriteAll` | scripts/body_qualification_io.py:61-67 | under arbitrary short writes and failures the file holds a prefix of the value, all of it on success, and nothing else changes |
| `FileSystems.FileSystem.UnlinkOwned` | scripts/body_qualification_io.py:70-79 | the name is removed exactly when it has the given identity |
| `FileSystems.FileSystem.VerifyOwned` | scripts/body_qualification_io.py:82-88 | success means the name is a regular file with the given identity |
| `FileSystems.FileSystem.Rename` | scripts/body_qualification_io.py:253 | the target takes over the source's file in one transition, or nothing changes |
| `FileSystems.FileSystem.Identify` | scripts/body_qualification_io.py:249 | the identity of the open file or a failure, which is recorded |
| `FileSystems.FileSystem.Sync` | scripts/body_qualification_io.py:251 | the outcome is recorded with the content that was made durable |
| `FileSystems.FileSystem.CheckOwned` | scripts/benchmark_callee_context.py:422-429 | whether the name has the given identity; refused without a fault only when it has not |
| `FileSystems.FileSystem.EnsureDirectory` | scripts/body_qualification_io.py:228-231 | afterwards the name exists: it was made as a new directory, or existed |
| `FileSystems.FileSystem.Link` | scripts/benchmark_callee_context.py:449-455 | never replaces an existing entry |
| `FileSystems.FileSystem.VerifyDirectory` | scripts/body_qualification_io.py:204-216 | success means the name is the directory behind the pinned descriptor |
| `FileSystems.FileSystem.Close` | scripts/body_qualification_io.py:177-192 | a descriptor must be open to be closed, hence is closed at most once |
| `OwnedFiles.LinkStep` | scripts/benchmark_callee_context.py:449-456 | linking the complete temporary to an unused name is a permitted transition |
| `OwnedFiles.RenameStep` | scripts/body_qualification_io.py:253 | renaming the complete temporary is a permitted transition and shows our file exactly when the temporary was still ours |
| `OwnedFiles.AtomicExactly` | scripts/body_qualification_io.py:252-253 | a step of a replacing run is atomic exactly when it leaves the target alone or its rename starts from a safe state |
| `OwnedFiles.RunAtomicExactly` | scripts/body_qualification_io.py:238-260 | the same of every step of every run, and all steps are atomic while other processes leave the temporary name alone |
| `OwnedFiles.RenameRace` | scripts/body_qualification_io.py:246-254 | a whole run, from the creation of the private file on, in which another process replaces the temporary after the check and a foreign file is published |
| `OwnedFiles.UnlinkStep` | scripts/body_qualification_io.py:70-79 | cleanup by identity is a permitted transition and leaves other entries alone |
| `ReportPublication.VerifyParent` | scripts/benchmark_callee_context.py:398-410 | success means the parent path is the owned directory and the output is no protected input |
| `ReportPublication.Prepare` | scripts/benchmark_callee_context.py:395-418 | changes nothing, and succeeds only with the owned parent seen and an unused output name |
| `ReportPublication.FillTemporary` | scripts/benchmark_callee_context.py:434-448 | every transition is permitted; success means the complete and synced data under the temporary name, with the owned parent seen |
| `ReportPublication.LinkAndConfirm` | scripts/benchmark_callee_context.py:449-459 | success means one step linked our file to the unused output name, between one sight of the owned parent and another |
| `ReportPublication.CleanUp` | scripts/benchmark_callee_context.py:460-478 | closes the descriptor, undoes a failed publication, and removes the temporary unless both attempts to identify it failed |
| `ReportPublication.Publish` | scripts/benchmark_callee_context.py:389-478 | over every run: the private file is a new one, a foreign entry is never replaced or removed, no partial report is shown; a normal return has linked exactly the synced data between two sights of the owned parent and removed the temporary; a raise leaves neither name on our file, except the temporary when both attempts to identify it failed; it raises exactly when a call was refused |
| `OwnedWorks.OwnedWork.constructor` | scripts/body_qualification_io.py:135-142 | starts idle and unpublished |
| `OwnedWorks.CloseAll` | scripts/body_qualification_io.py:188-189 | closes every listed descriptor once and no other |
| `OwnedWorks.OwnedWork.Exit` | scripts/body_qualification_io.py:177-192 | closes exactly what is held, and nothing when called again |
| `OwnedWorks.OwnedWork.OpenNext` | scripts/body_qualification_io.py:153-156 | opens the next component inside the last ancestor and records the link; on failure nothing is held in addition |
| `OwnedWorks.OwnedWork.OpenAncestors` | scripts/body_qualification_io.py:152-158 | every ancestor opened so far is held, starting at the root, at any depth and after any failure |
| `OwnedWorks.OwnedWork.MakeAndOpen` | scripts/body_qualification_io.py:159-165 | the name did not exist, a new directory was made there and then opened there; the two are the same while other processes leave the name alone |
| `OwnedWorks.OwnedWork.VerifyAncestors` | scripts/body_qualification_io.py:194-202 | changes nothing; success means each pinned ancestor was seen under its name |
| `OwnedWorks.OwnedWork.Reserve` | scripts/body_qualification_io.py:151-172 | everything opened is held whichever step fails; success means the output and its source directory are new directories under their names, below ancestors that lead from the root by the path |
| `OwnedWorks.OwnedWork.Enter` | scripts/body_qualification_io.py:144-175 | as `Reserve`; only the output and its source directory are made; on failure at any step every opened descriptor is closed again; it raises exactly when the output has no name or a call was refused |
| `OwnedWorks.OwnedWork.Verify` | scripts/body_qualification_io.py:204-216 | changes nothing; success means every directory of the tree was seen to be the pinned one |
| `OwnedWorks.OwnedWork.OpenChild` | scripts/body_qualification_io.py:227-235 | the component was opened as a directory of the given one; with `create`, it was made or found to exist right before, and nothing else is made; without, nothing is made |
| `OwnedWorks.OwnedWork.Descend` | scripts/body_qualification_io.py:226-235 | each component was reached from the one before; directories are made only under the names of the path, and only with `create`; failure closes everything opened on the way |
| `OwnedWorks.OwnedWork.OpenParent` | scripts/body_qualification_io.py:218-236 | the tree was verified and the returned directory and name are what the path leads to from the source or output directory; directories are made only under the names of the path, and only with `create`; failure closes everything opened on the way; it raises exactly on a malformed path or a refused call |
| `OwnedWorks.OwnedWork.WriteAndRename` | scripts/body_qualification_io.py:248-254 | every transition is permitted, the target changes by the rename only; success means the complete and synced value was shown under the target |
| `OwnedWorks.OwnedWork.ReplaceIn` | scripts/body_qualification_io.py:240-259 | as `Write`, inside one open directory |
| `OwnedWorks.OwnedWork.Write` | scripts/body_qualification_io.py:238-260 | the target is what the path leads to; before the private file only missing directories of the path are made; at every intermediate state the target never shows a prefix and changes by the rename only, each step being atomic exactly when it leaves the target alone or the rename is safe; the private file is a new one; success means the synced value was shown between two checks of the tree; afterwards the temporary does not name our file unless identifying it failed; every descriptor is closed; it raises exactly on a malformed path or a refused call |
| `OwnedWorks.OwnedWork.RenameAbsent` | scripts/body_qualification_io.py:286-292 | the target was seen absent and the next step renamed the source to it, or nothing changed |
| `OwnedWorks.OwnedWork.OpenBoth` | scripts/body_qualification_io.py:282-285 | both paths are followed, directories being made only under the names of the destination's path; failure closes everything opened |
| `OwnedWorks.OwnedWork.MoveSource` | scripts/body_qualification_io.py:281-293 | source and destination are what the two paths lead to; only missing directories of the destination's path are made before the one rename; an existing destination is spared exactly when it is absent, or the same file, right before the rename; every descriptor is closed; it raises exactly on a malformed path or a refused call |
| `OwnedRuns.MoveRace` | scripts/body_qualification_io.py:286-292 | a run in which another process puts a file at the destination after the check, and it is replaced |
| `OwnedWorks.OwnedWork.FillMarker` | scripts/body_qualification_io.py:318-326 | success means the marker text and both directories were synced and the marker held the text while every directory identity was verified again |
| `OwnedWorks.OwnedWork.PlaceMarker` | scripts/body_qualification_io.py:311-331 | the marker is a new file under a name that did not exist; an existing marker is left alone, a failed attempt removes its own marker unless identifying it failed |
| `OwnedWorks.OwnedWork.PublishMarker` | scripts/body_qualification_io.py:309-332 | `published` becomes true only with the exclusively created marker holding the synced text and the directories verified before and after; a second call fails and changes neither marker nor flag; it raises exactly when a call was refused |
| `TieAwareRanking.AverageHits` | scripts/benchmark_callee_context.py:333-344 | over all tie orders the first k rows contain the closed form's number of positives on average |
| `TieAwareRanking.OrdersListed` | scripts/benchmark_callee_context.py:333-338 | the enumerated tie orders are all orderings by descending score, once each |
| `TieAwareRanking.ExpectedBounds` | scripts/benchmark_callee_context.py:342 | the expected number of positives among k rows is between 0 and k |
| `TieAwareRanking.GroupEntry` | scripts/benchmark_callee_context.py:341-342 | the script's expression inside a tie group is the expected precision at that budget |
| `TieAwareRanking.RankCurve` | scripts/benchmark_callee_context.py:335-344 | one entry per row, in [0, 1], each the average over all orderings by descending score |
| `TieAwareRanking.AverageUnique` | scripts/benchmark_callee_context.py:333-344 | the average is one number, whatever the order of the rows |
| `TieAwareRanking.TieBreakExact` | scripts/benchmark_callee_context.py:338-344 | at a group boundary every tie-break has exactly the curve's number of positives |
| `ControlSummary.DecidedExactly` | scripts/benchmark_callee_context.py:326-327 | the ranked rows are the pairs at the scored labelled positions, in order, with score, label and exactness kept |
| `ControlSummary.CollectDecided` | scripts/benchmark_callee_context.py:326-327 | the scored labelled rows |
| `ControlSummary.CountLabelled` | scripts/benchmark_callee_context.py:326 | the number of labelled pairs |
| `ControlSummary.CountPositives` | scripts/benchmark_callee_context.py:330 | the number of pairs labelled positive |
| `ControlSummary.OutcomesCounted` | scripts/benchmark_callee_context.py:328-332 | each outcome is the number of scored pairs with that label and exactness |
| `ControlSummary.CountOutcomes` | scripts/benchmark_callee_context.py:328-332 | the four outcomes of the scored labelled rows, the true negatives being what the others leave over |
| `ControlSummary.Summarize` | scripts/benchmark_callee_context.py:325-359 | every count is the number of pairs with the stated label, score and exactness; ratios are reported exactly for non-zero divisors, the end-to-end recall over all pairs labelled positive; the curve is the average over all orderings |
| `ControlSummary.CurveOrderFree` | scripts/benchmark_callee_context.py:326-344 | permuting the pairs gives the same curve |
| `Jaccard.DistanceForm` | scripts/benchmark_callee_context.py:314 | one minus the score is 2d / (\|a\| + \|b\| + d) with d the number of differing elements |
| `Jaccard.TriangleInequality` | scripts/benchmark_callee_context.py:309-318 | the distance obeys the triangle inequality |
| `Jaccard.ZeroExactlyWhenEqual` | scripts/benchmark_callee_context.py:309-318 | the distance is in [0, 1] and zero exactly for equal fingerprints |
| `Jaccard.Symmetric` | scripts/benchmark_callee_context.py:309-318 | the distance is symmetric |
| `Jaccard.ReportedMetric` | scripts/benchmark_callee_context.py:309-318 | the reported scores of any three units with fingerprints form a metric |
| `Jaccard.AbstainsExactly` | scripts/benchmark_callee_context.py:310-322 | no score exactly when a fingerprint is empty, and then the stated reason; otherwise the status is passed on and exactness compares the exact hashes |
| `ControlManifest.CheckUnits` | scripts/benchmark_callee_context.py:98-129 | accepts exactly well-formed units with distinct ids and locations |
| `ControlManifest.CheckPairs` | scripts/benchmark_callee_context.py:130-159 | accepts exactly well-formed pairs: known, different ends, no id and no unordered pair twice; and collects the ends |
| `ControlManifest.CheckHeader` | scripts/benchmark_callee_context.py:82-97 | accepts exactly the right schema, a domain text and at most 32 sources with well-formed names and hashes |
| `ControlManifest.CheckUnit` | scripts/benchmark_callee_context.py:112-126 | accepts exactly the units with the stated fields within their limits |
| `ControlManifest.CheckPair` | scripts/benchmark_callee_context.py:142-151 | accepts exactly the pairs of two different known units with all texts present |
| `ControlManifest.Validate` | scripts/benchmark_callee_context.py:81-162 | accepts exactly the well-formed manifests, in which every unit is used |
| `ControlManifest.AcceptedBounds` | scripts/benchmark_callee_context.py:98-161 | for u units there are at most u(u-1)/2 pairs, and u is at most twice the number of pairs |
| `ControlManifest.NoIsolatedUnit` | scripts/benchmark_callee_context.py:160-161 | every unit is an end of some pair |
| `ModuleNames.Contains` | scripts/comprehensive_graph_analysis.py:74-76 | a part occurs in a text exactly when some slice of the text is the part |
| `ModuleNames.IsIncluded` | scripts/comprehensive_graph_analysis.py:73-77 | exactly the files below `victor/` that contain neither `/test` nor `test_` in any case |
| `ModuleNames.SubmoduleExactly` | scripts/comprehensive_graph_analysis.py:112-121 | the module of any path: `victor.` and the component after the first `victor`, `victor` without one, `unknown` for no path |
| `ModuleNames.SubmoduleOfJoin` | scripts/comprehensive_graph_analysis.py:112-121 | the same of a path written as the join of plain components |
| `ModuleNames.BelowVictor` | scripts/comprehensive_graph_analysis.py:112-121 | a path below `victor/<x>/` belongs to `victor.<x>` |
| `ModuleCoupling.SameDirectoryNotCross` | scripts/comprehensive_graph_analysis.py:300-307 | files below the same `victor/<x>/` are never joined by a cross-module edge |
| `ModuleCoupling.FilterNodes` | scripts/comprehensive_graph_analysis.py:70-81 | keeps exactly the included nodes, and exactly the rows between them, in order |
| `ModuleCoupling.BuildGraph` | scripts/comprehensive_graph_analysis.py:84-95 | the graph folded from the rows, with both ends of every edge among its nodes |
| `ModuleCoupling.LastRowWins` | scripts/comprehensive_graph_analysis.py:91-93 | an edge exists exactly when some row joins its ends, and carries the last such row's type and weight |
| `ModuleCoupling.FilterKeepsGraph` | scripts/comprehensive_graph_analysis.py:79-93 | dropping rows beforehand does not change the graph |
| `ModuleCoupling.CountModuleEdges` | scripts/comprehensive_graph_analysis.py:299-308 | counts, for every pair of different modules, the graph edges between them |
| `ModuleCoupling.FlattenCounts` | scripts/comprehensive_graph_analysis.py:311-313 | the module graph has exactly the counted pairs with their counts |
| `ModuleCoupling.SumInto` | scripts/comprehensive_graph_analysis.py:318 | summing module-edge weights gives the number of code edges that end in the module |
| `ModuleCoupling.SumOutOf` | scripts/comprehensive_graph_analysis.py:319 | summing module-edge weights gives the number of code edges that leave the module |
| `ModuleCoupling.CouplingTable` | scripts/comprehensive_graph_analysis.py:316-334 | one row per module touched by a cross-module edge, with its code-edge counts, heaviest first |
| `ModuleCoupling.TightPairs` | scripts/comprehensive_graph_analysis.py:337-341 | exactly the module pairs with at least 20 code edges, heaviest first |
| `ModuleCoupling.AnalyzeCoupling` | scripts/comprehensive_graph_analysis.py:296-352 | both tables over the collapsed graph, the second cut to its 30 heaviest |
| `GraphAggregates.CountByType` | scripts/comprehensive_graph_analysis.py:510-517 | counts, for every pair of different modules, the graph edges of each type |
| `GraphAggregates.SumValues` | scripts/comprehensive_graph_analysis.py:522 | summing a counter gives the number of elements counted |
| `GraphAggregates.Dependencies` | scripts/comprehensive_graph_analysis.py:519-532 | exactly the module pairs with at least 5 code edges, with total and types, heaviest first |
| `GraphAggregates.ModuleSizes` | scripts/comprehensive_graph_analysis.py:506-508 | every module with its number of nodes, largest first |
| `GraphAggregates.DependencyData` | scripts/comprehensive_graph_analysis.py:501-540 | both lists; the module sizes sum to the number of nodes |
| `GraphAggregates.DegreeSum` | scripts/comprehensive_graph_analysis.py:473-474 | the degrees by either end sum to the number of edges |
| `GraphAggregates.GraphMetrics` | scripts/comprehensive_graph_analysis.py:467-498 | fails exactly without nodes; average in-degree equals average out-degree; each distribution counts the nodes or edges with that type or module |
| `GraphAggregates.CouplingBalance` | scripts/comprehensive_graph_analysis.py:316-331 | total afferent coupling, total efferent coupling and the number of cross-module edges are equal |
| `GraphAggregates.TightIsDependency` | scripts/comprehensive_graph_analysis.py:337-341 | every shown tight pair is a dependency with the same total |
| `GraphAggregates.HeavyDependencyIsTight` | scripts/comprehensive_graph_analysis.py:519-532 | a dependency of at least 20 edges is a shown tight pair, or 30 at least as heavy ones are shown |
| `GraphAggregates.SizesSum` | scripts/comprehensive_graph_analysis.py:534-538 | module sizes sum to the number of nodes |
| `GraphAggregates.SizesAgree` | scripts/comprehensive_graph_analysis.py:489-495 | the two module distributions are permutations of each other |
| `GraphAggregates.EdgeTotals` | scripts/comprehensive_graph_analysis.py:594-598 | the row total in the metadata equals the graph's edge count exactly when no two surviving rows join the same ends |
| `GraphAggregates.EdgeTotalsDiffer` | scripts/comprehensive_graph_analysis.py:91-93 | two rows of different types between the same nodes: two rows, one edge, the second type |
| `GraphAggregates.Analyze` | scripts/comprehensive_graph_analysis.py:548-598 | for any stored nodes and rows, all the agreements above hold of the results of one run |
| `NestedFunctions.Visitor.Visit` | scripts/dead_code_triage.py:88-105 | restores the stack and adds exactly the lines recorded for that subtree |
| `NestedFunctions.Visitor.VisitFunctionDef` | scripts/dead_code_triage.py:92-97 | the same for a function definition |
| `NestedFunctions.Visitor.VisitAsyncFunctionDef` | scripts/dead_code_triage.py:99-104 | the same for an asynchronous function definition |
| `NestedFunctions.Visitor.GenericVisit` | scripts/dead_code_triage.py:96 | the same for the children |
| `NestedFunctions.RecordedIsNested` | scripts/dead_code_triage.py:92-104 | every recorded line is that of a function definition with a function definition properly above it |
| `NestedFunctions.NestedIsRecorded` | scripts/dead_code_triage.py:92-104 | every such definition has its line recorded |
| `NestedFunctions.NestedFunctionLines` | scripts/dead_code_triage.py:80-107 | the result is exactly the lines of function definitions with some proper function-definition ancestor, empty when parsing fails |
| `WorkloadGenerator.GenerateSplit` | scripts/benchmark_graph_similarity_evaluation.py:32-66 | the pairs and scores of a split in order; its units are the referenced endpoints, once each |
| `WorkloadGenerator.Generate` | scripts/benchmark_graph_similarity_evaluation.py:18-66 | succeeds exactly on admissible arguments; ends differ, no id and no unordered pair repeats, units are exactly the endpoints, exactly half the pairs are positive |
| `WorkloadGenerator.RingPairsDiffer` | scripts/benchmark_graph_similarity_evaluation.py:37 | for any modulus M and D bands with 2D < M: distinct ends and no unordered pair twice |
| `WorkloadGenerator.RingOverlaps` | scripts/benchmark_graph_similarity_evaluation.py:37 | for 2D >= M some unordered pair is generated twice, so the bound is exact |
| `WorkloadGenerator.SplitEndpoints` | scripts/benchmark_graph_similarity_evaluation.py:38-52 | the endpoints of a split of n pairs are the first min(n + 1, 2500) units |
| `WorkloadGenerator.HalfPositive` | scripts/benchmark_graph_similarity_evaluation.py:36 | exactly half of all pairs are positive |
| `WorkloadGenerator.ScoresSeparate` | scripts/benchmark_graph_similarity_evaluation.py:51 | every positive pair outscores every negative one by more than 0.4 |

## Left out

- Everything imported from `victor.*`, and the scripts that only time, measure or print.
- `_cache_records`, `cache_database`, `seed_cache`: SQLite and vector decoding; the decoded cache is a parameter, and its vectors have the profile's dimension because decoding checks that.
- Floating point: scores, margins and cosines are reals, the cosine a parameter; rounding of reported averages and of `instability` is not modelled.
- SHA-256, JSON text and Unicode case folding are parameters; no injectivity is assumed.
- Type tests (`isinstance`, `type(x) is int`, the 64-hex-digit form) are done by the datatypes; error messages are not distinguished; hashes are numbers ordered like their digits.
- A sorted tuple of ids used as a dictionary key is the set of ids, the comparison with the number of members being kept.
- `component_and_edge_count_sha256`, `maximum_requested_dense_score_delta` and the constant fields of the reports.
- `unlink_source`, `read_source`, `bounded_read`: one unconditional removal, and readers from `victor.*`.
- Faults inside the cleanup calls themselves (`os.close`, `os.unlink` after an identity match) and asynchronous interrupts between two statements.
- Race windows inside one check-then-act helper (`_unlink_owned`, `_verify_owned`, `owned` with its unlink): each is one atomic step. The window between separate calls is modelled.
- Reuse of inode numbers by the system while a descriptor of the run is open.
- OwnedWorks.OwnedWork.Enter: requires an idle object; entering an object twice without leaving it is not modelled.
- OwnedWorks.OwnedWork.Write: requires the temporary name, random in the script, to differ from the target's name.
- ReportPublication.Publish: requires the temporary name, random in the script, to differ from the output's name.
- Progress: any call may fail, so no contract promises that an operation succeeds; the contracts say exactly when it raises.
- Iteration order of sets and dictionaries, and the order among equal totals in sorted tables.
- WorkloadGenerator.Generate: the identifier strings are pairs of split and index; constant fields of units, pairs and projects are dropped.
- ModuleCoupling.AnalyzeCoupling: cycles and densities, which a graph library computes, are not modelled; neither are centrality, dead-code and duplication reports.
- `Path` on systems whose separator is not `/`.
