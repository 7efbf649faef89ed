# Verified models of the toolkit's core algorithms

The toolkit annotates natural-language text in a lattice and runs chains of processors over it. This
project models the parts of it that carry real algorithmic state, one Dafny module per component, and
proves what they keep and what they compute. `dafny verify dfyconfig.toml` checks everything.

Code that changes things step by step is a class or a method with the same fields, branches and loops,
proved against a specification function; the properties are lemmas about that function.

| files | component | main results |
|---|---|---|
| `zhash.dfy`, `probing.dfy` | hash table `zhash` | lookups are right after any interleaving of `put`, `remove` and resizes; every probe loop ends; an odd step covers all cells for all hashes exactly when the size is a power of two |
| `promise_planning.dfy`, `planning_ends.dfy`, `planning_cycles.dfy`, `planning_bounds.dfy`, `planning_worlds.dfy`, `planning_termination.dfy` | when the search of `AutoCompleter` ends | for every plan, if and only if the factories have no live cycle of required lists; how that relates to factories that depend on themselves |
| `planning_languages.dfy`, `plan_solutions.dfy`, `plan_orders.dfy`, `pipeline_choice.dfy`, `auto_completer.dfy` | `AutoCompleter` | the results are exactly the settled plans that some run of steps reaches; they are complete, carry the original plan, and add only what is required in the language of what requires it; the choice among them is unique |
| `lattice_store.dfy`, `lattice_updates.dfy`, `lattice.dfy` | edge store of `Lattice` | the lists kept per vertex and mask refine plain filters; queries are sublists of the filters in all runs |
| `lattice_answers.dfy` | `addEdge` | the answered edge, the planes it inherits, the bits it changes and the reasons for a rejection, from the request and the content before it |
| `lattice_runs.dfy`, `lattice_duplicates.dfy`, `lattice_witnesses.dfy` | runs of a `Lattice` | all queries are filters if and only if no addition of the run merged late; exactly when a request leaves one edge more for its vertices and item; concrete runs for each |
| `edge_sequences.dfy`, `lattice_walks.dfy`, `lattice_paths.dfy` | `EdgeSequence`, `getPath` | exactly when building and reading again is the identity; access agrees with the list in the same cases; paths are always read back; `getPath` ends if and only if its walk comes to no vertex twice |
| `getopt.dfy` | GNU `getopt`, PERMUTE mode | `exchange` swaps adjacent blocks; a whole scan is a stable partition |
| `glob_language.dfy`, `glob_matcher.dfy`, `symbol_globs.dfy`, `segment_glob.dfy`, `utf8.dfy` | `SegmentGlob` | nothing of a glob's language over UTF-8 symbols is refused; all globs are decided right if and only if the segment is not deceptive |
| `md5.dfy` | `MD5` streaming | any split into `update` calls gives the digest of RFC 1321, sections 3.1 to 3.5 |
| `cutter.dfy`, `utf8.dfy` | `Cutter` | the one position where a segment is cut; repeated calls tile the text, and get to its end if and only if no symbol is too long |
| `tiniconv.dfy` | `tiniconv_convert` | the outcome is the only one that the codecs explain; pieces resumed on the unread input are one call |
| `maxent_params.dfy`, `maxent_model_file.dfy`, `maxent_layout.dfy` | feature numbering, binary model files | both builders give the one numbered table; the layout of the file byte by byte; a saved model is loaded unchanged if and only if it is numbered that way and fits the format |
| `morfologik.dfy`, `morfologik_forms.dfy` | Morfologik tag expansion | the Cartesian product exactly when the counter is right; exactly when `parse` and `getFormAttributes` get it right |
| `edit_distance.dfy` | edit distance | the two-row loop computes the length of a shortest edit script; a metric |

## What the model says about the code

Points where the code does not do what one would expect; each is stated exactly in a contract.

- After `getopt` has returned -1 with operands left, `optind` stands at the first operand, so
  `last_nonopt <= optind` no longer holds. At the end of a scan it holds if and only if the arguments have no
  operands (`Next`, `ScanAll`).
- `SegmentGlob::matches` retries byte by byte but steps over `?` by whole symbols. It never refuses a segment
  of the language over symbols, but accepts others (`RetriesInsideSymbols`). For a given segment some glob
  is decided wrongly if and only if the segment is `Deceptive`: a symbol of three or more bytes is followed,
  anywhere later, by two neighbours that differ, the first of them not `*` or `?` (`DecidedIff`).
- The loop test of `MD5::update` is right exactly when `i + 64` does not wrap at the last block start
  (`WrapDecides`).
- `Cutter` throws for a segment exactly when one of its symbols is longer than the hard limit
  (`HasLongSymbol`); 4 or more never throws. Cutting a whole text ends early exactly if it has such a symbol.
- `isViciousCircle_` detects cycles of one step only. The search ends for every plan if and only if there is
  no `LiveCycle`: promises in a circle, each with a required list that brings in the next, such that none of
  the lists they require before these has all the tags of one of these (`AllPlansEndIff`). Two factories that
  provide what the other requires are a live cycle (`TwoStepCycle`); a factory that depends on itself through
  others need not be on one (`CyclicButEnds`). For language-independent annotators that require at most one
  list, it is the same (`PlainWorldsIff`).
- A merge that makes an edge of the graph match a mask that is indexed already does not touch the lists, so
  queries for the mask do not find the edge (`LateRun`). All queries of a run are the filters they should be
  if and only if no addition merged late in this way (`FiltersIff`); `MergesLate` can be checked before the
  call.
- `common/lattice.hpp:456-458` promises that no second edge is added for the same vertices and item. An
  accepted request leaves one edge more in exactly two cases (`OneMoreIff`): no known edge is in the same
  plane, also if there is one in another plane (`PlaneRun`), or the first known edge in the plane is a symbol
  edge that has been replaced by an edge with more tags, as its descriptor stays the first known one
  (`StaleRun`); then every further accepted request for more tags adds an edge (`UpgradeRepeats`).
- `canBeAppliedToImplicitSymbol` differs from `matches` exactly for masks with an empty alternative and
  without the symbol tag (`AppliesIffMatches`).
- An edge list of hidden symbols that begins at the front of the text, has a break and then goes on from the
  front without another one is taken for the range behind the break (`LostRun`). Reading gives a list without
  roles back if and only if it is not `Mistaken` in this way (`ReadBackIff`).
- `getPath` ends if and only if the walk along the last matching edges comes to no vertex twice, and then
  within as many steps as there are bytes of text and loose vertices (`WalkEndsIff`). A circle always passes a
  loose vertex (`CirclePassesLoose`); two loose vertices with an edge there and one back are enough
  (`LooseRun`), or one with an edge from a position of the text and one back (`MixedRun`).
- `MorfologikTagsParser::parse` counts dotted attributes that do not get into the description, and then
  returns nothing at all (`Parse`, `SecondGenderIsLost`). `getFormAttributes` also erases a dotted part of
  speech without lowering the counter, with the same result (`GetFormAttributes`, `DottedPosIsLost`).
- Loading a binary model drops repeated names and renumbers all features, so that `RoundTrip` is an
  equivalence and not an implication.

## Model

| member | source | states |
|---|---|---|
| `ZHash.Table.Get` | common/zvalue.hpp:748-752 | returns a stored live value that matches the key whenever one is stored, and null only if none is |
| `ZHash.Table.GetCell` | common/zvalue.hpp:678-697 | ends at the first probe, from probe `i` on, whose cell is null or a live match |
| `ZHash.Table.GetNext` | common/zvalue.hpp:754-757 | continues a search at probe `i`: no match is passed over |
| `ZHash.Table.PutCell` | common/zvalue.hpp:660-676 | fills the first non-live cell of the value's probe path, keeps all chains and counts a null cell that is used up |
| `ZHash.Table.Put` | common/zvalue.hpp:773-781 | one more stored value, whichever of growth, same-size rehash and plain insertion takes place; the size doubles at half load |
| `ZHash.Table.Remove` | common/zvalue.hpp:759-771 | takes out exactly one matching value, or changes nothing because none is stored |
| `ZHash.Table.Resize` | common/zvalue.hpp:700-719 | the same stored values in a block of another size without tombstones |
| `ZHash.Table.Reinsert` | common/zvalue.hpp:710-713 | live cells are stored again, null cells and tombstones are dropped |
| `ZHash.Table.constructor` | common/zvalue.hpp:626-653 | an empty valid table |
| `ZHash.StoreKeepsChains` | common/zvalue.hpp:660-676 | filling the first non-live cell of a probe path keeps every stored value reachable |
| `ZHash.RemoveKeepsChains` | common/zvalue.hpp:759-771 | a tombstone keeps every stored value reachable |
| `ZHash.NullMeansAbsent` | common/zvalue.hpp:678-697 | a search that stops at a null cell has met no match because there is none |
| `ZHash.ProbeMeetsNull` | common/zvalue.hpp:667-693 | while one cell is null, every probe loop meets a null cell within `size` probes |
| `ZHash.CountsAdd` | common/zvalue.hpp:660-719 | null cells, tombstones and live cells add up to the block |
| `ZHash.StoreCounted` | common/zvalue.hpp:773-781 | storing a value keeps the counter invariants |
| `ZHash.RemoveCounted` | common/zvalue.hpp:759-771 | removing a value keeps the counter invariants |
| `Probing.ProbeAdvance` | common/zvalue.hpp:667-693 | `(ix += h2) %= size` on unsigned words is the next probe, wrap-around included |
| `Probing.ProbeStart` | common/zvalue.hpp:680-683 | `(h1 + i * h2) % size` on unsigned words is probe `i`, wrap-around included |
| `Probing.OddInverse` | common/zvalue.hpp:662-668 | an odd step has an inverse modulo a power of two |
| `Probing.ReachesCell` | common/zvalue.hpp:662-668 | from any probe on, every cell is met within `size` probes |
| `Probing.CoverageIffPow2` | common/zvalue.hpp:662-668 | the step reaches all cells for all hash values if and only if the size is a power of two |
| `PlanningTermination.NextIsLess` | framework/auto_completer.cpp:77-197 | every insertion, language multiplication and choice makes the measure smaller |
| `PlanningTermination.FulfillersAreLess` | framework/auto_completer.cpp:151-190 | fulfillers cost less than is charged for the list they meet |
| `PlanningTermination.FulfillersCost` | framework/auto_completer.cpp:256-282 | an inserted alternative costs at most the charge of the promise that requires it |
| `PlanningTermination.FulfillerIsLower` | framework/auto_completer.cpp:256-294 | a factory that can fulfill a list stands below the promise that requires it |
| `PlanningTermination.FulfillersProvide` | framework/auto_completer.cpp:256-282 | every fulfiller provides the tags asked for |
| `PlanningTermination.CopiesAreLess` | framework/auto_completer.cpp:91-120 | the copies for all languages cost less than the multilingual alternative |
| `PlanningTermination.FilteredIsMonolingual` | framework/auto_completer.cpp:98-106 | the copy for one language is not multilingual, as the code asserts |
| `PlanningTermination.FilteredMember` | framework/auto_completer.cpp:440-481 | members of a copy have the tags of a member of the alternative |
| `PlanningTermination.ChoiceIsLess` | framework/auto_completer.cpp:121-150 | choosing one member of an alternative makes the measure smaller |
| `PlanningLanguages.FulfillersInOrder` | framework/auto_completer.cpp:256-282 | fulfillers are listed in the order of their factories |
| `PlanningLanguages.OneFactory` | framework/auto_completer.cpp:256-330 | a factory contributes exactly if it is an annotator, provides the tags, does not require a list with all of them and its default can be used for the language; and what it contributes |
| `PlanningLanguages.FulfillersSpeak` | framework/auto_completer.cpp:256-330 | every fulfiller has the language asked for, and every such factory contributes one, also if none is asked for |
| `PlanningLanguages.FilteredInOrder` | framework/auto_completer.cpp:440-456 | the members of a copy stay in order |
| `PlanningLanguages.OneMember` | framework/auto_completer.cpp:458-481 | a member is in the copy for a language exactly if it handles it, with the language set if it depends on it |
| `PlanningLanguages.MonolingualIff` | framework/auto_completer.cpp:199-218 | an alternative is multilingual exactly if there is no one language for all its members |
| `PlanningLanguages.FulfillersSpeakFor` | framework/auto_completer.cpp:165-190 | the fulfillers for a promise have its language, if both are for just one |
| `PlanningEnds.LayeredEnds` | framework/auto_completer.cpp:77-197 | if no factory depends on itself, no run of steps is longer than the measure of its first plan |
| `PlanningEnds.EndsIffRunsWithin` | framework/auto_completer.cpp:77-197 | the bound that the recursion on successors gives is a bound on all runs, and every bound is one |
| `PlanningEnds.NextIsCompletable` | framework/auto_completer.cpp:77-197 | every step keeps the plan well-formed and makes the longest run shorter |
| `PlanningCycles.BroughtInEnds` | framework/auto_completer.cpp:91-197 | what a required list brings in stands right behind the settled part some steps later |
| `PlanningCycles.LiveCycleNeverEnds` | framework/auto_completer.cpp:77-197 | from the first promise of a live cycle of any length, behind suppliers of the earlier lists, runs have any length |
| `PlanningBounds.CircleIsLive` | framework/auto_completer.cpp:151-190 | promises that bring in each other in a circle in front of the same settled part are a live cycle |
| `PlanningBounds.PromiseEnds` | framework/auto_completer.cpp:151-190 | without a live cycle, work on a promise ends if what comes behind it does |
| `PlanningBounds.SequenceEnds` | framework/auto_completer.cpp:77-197 | so does work on a list of alternatives, multilingual ones included |
| `PlanningBounds.AllPlansEndIff` | framework/auto_completer.cpp:77-294 | the search ends for every plan if and only if there is no live cycle |
| `PlanningWorlds.LayeredHasNoLiveCycle` | framework/auto_completer.cpp:256-294 | if no factory depends on itself, there is no live cycle |
| `PlanningWorlds.HelperEndsSooner` | framework/auto_completer.cpp:151-190 | the runs of a helper are part of longer runs of the factory that it helps |
| `PlanningWorlds.PlainWorldsIff` | framework/auto_completer.cpp:77-294 | for plain annotators: the search ends for every plan, it ends for each default promise, and no factory depends on itself are the same |
| `PlanningWorlds.CyclicButEnds` | framework/auto_completer.cpp:151-190 | in general not: an earlier unmet list can end the search before the cycle is entered |
| `PlanSolutions.SolutionsAreReached` | framework/auto_completer.cpp:77-197 | the solutions are exactly the settled plans that some run reaches |
| `PlanSolutions.SolutionsAreComplete` | framework/auto_completer.cpp:151-197 | in every solution each required list is provided by one earlier promise, and no language is left open |
| `PlanSolutions.SolutionsCarryThePlan` | framework/auto_completer.cpp:96-190 | the alternatives survive in order as one member or one per language, and all else provides something required later, in the language of what requires it |
| `PlanOrders.EarlierMembersFirst` | framework/auto_completer.cpp:121-150 | the completions with an earlier member of an alternative come before those with a later one |
| `PlanOrders.EveryFulfillerIsTried` | framework/auto_completer.cpp:151-190 | the completions with any of the fulfillers in front are completions |
| `PlanningWorlds.TwoStepCycle` | framework/auto_completer.cpp:284-294 | two factories that require each other's tags are a live cycle |
| `AutoCompleter.AutoCompleter.CompleteFrom` | framework/auto_completer.cpp:77-197 | the loop that edits the list in place appends exactly the solutions of the list, in order, and ends |
| `AutoCompleter.AutoCompleter.TryAlternatives` | framework/auto_completer.cpp:121-150 | recursive calls on one member each append the solutions of the whole list |
| `AutoCompleter.AutoCompleter.MultiplyByLanguages` | framework/auto_completer.cpp:91-120 | the alternative is replaced by its copies, or the branch is given up because one is empty |
| `AutoCompleter.AutoCompleter.IsMultilingual` | framework/auto_completer.cpp:199-218 | true exactly for a language-dependent member or two members for different languages |
| `AutoCompleter.AutoCompleter.CheckRequiredTags` | framework/auto_completer.cpp:220-236 | true exactly if one earlier alternative provides all the tags |
| `AutoCompleter.AutoCompleter.FindUnfulfilled` | framework/auto_completer.cpp:151-161 | the first required list that no earlier alternative provides, if there is one |
| `AutoCompleter.AutoCompleter.IsSubset` | framework/auto_completer.cpp:238-254 | true exactly if every tag of one list occurs in the other |
| `AutoCompleter.AutoCompleter.IsViciousCircle` | framework/auto_completer.cpp:284-294 | true exactly if the factory itself requires these tags |
| `AutoCompleter.AutoCompleter.GetDefaultPromise` | framework/auto_completer.cpp:296-330 | the default promise, set to the language if need be, or none for another language |
| `AutoCompleter.AutoCompleter.FindFulfillers` | framework/auto_completer.cpp:256-282 | the usable default promises of all factories, in order |
| `AutoCompleter.AutoCompleter.CanHandleLanguage` | framework/auto_completer.cpp:458-481 | the promise for the language, a clone of it with the language set, or none |
| `AutoCompleter.AutoCompleter.FilterByLanguage` | framework/auto_completer.cpp:440-456 | the members that can handle the language, in order |
| `AutoCompleter.AutoCompleter.Complete` | framework/auto_completer.cpp:19-75 | answers with the first creatable candidate by quality, time and position, or throws the failure of the best one; a pipeline found is complete and carries the original sequence; the candidates behind it stay |
| `AutoCompleter.AutoCompleter.FindBest` | framework/auto_completer.cpp:35-46 | the best candidate of the list, the earliest of equally good ones |
| `AutoCompleter.AutoCompleter.TrySolution` | framework/auto_completer.cpp:382-397 | takes the candidate exactly if it is better than the one kept, and keeps its scores |
| `AutoCompleter.AutoCompleter.CheckSolution` | framework/auto_completer.cpp:399-417 | the failure of the first processor that cannot be created |
| `AutoCompleter.AutoCompleter.CalculateQualityScore` | framework/auto_completer.cpp:420-428 | the sum of the quality scores |
| `AutoCompleter.AutoCompleter.CalculateEstimatedTime` | framework/auto_completer.cpp:430-438 | the sum of the estimated times |
| `PipelineChoice.OneAnswer` | framework/auto_completer.cpp:19-75 | the description of the answer fits one answer only |
| `PipelineChoice.PrecedesIsStrict` | framework/auto_completer.cpp:382-397 | of two candidates exactly one is tried before the other |
| `PipelineChoice.ScoresAdd` | framework/auto_completer.cpp:399-438 | quality and time are sums over the promises, and the failure is the first |
| `PipelineChoice.OnePromise` | framework/auto_completer.cpp:382-438 | what is summed, and that more quality is better, and less time with the same quality |
| `PipelineChoice.BetterAdds` | framework/auto_completer.cpp:382-397 | the same promises before or behind two pipelines do not change which is better |
| `PipelineChoice.TakeFirst` | framework/auto_completer.cpp:48-63 | the best of the remaining candidates, if it can be created, is the first creatable one of all |
| `PipelineChoice.DropFirst` | framework/auto_completer.cpp:48-63 | a candidate that fails is erased, and the failure kept is that of the best of all |
| `LatticeStore.EdgesAtIsFilter` | common/lattice.cpp:371-445 | as long as nothing is missed, a query is the symbol edge and then all matching edges in insertion order |
| `LatticeStore.EdgesAtIsSublist` | common/lattice.cpp:371-445 | in every state a query is a sublist of the filter |
| `LatticeStore.AppliesIffMatches` | common/layer_tag_manager.cpp:138-148 | the test for the symbol edge is `matches` except for masks with an empty alternative and without the symbol tag |
| `LatticeStore.KeptMembers` | common/lattice.cpp:926-938 | the filter holds exactly the matching edges at the vertex, in ascending order |
| `LatticeStore.KeptMerge` | common/lattice.cpp:210-218 | a merge changes no list if the edges that match only now are counted as missed |
| `LatticeStore.KeptIsSublist` | common/lattice.cpp:916-943 | skipping edges leaves a sublist of the filter |
| `LatticeStore.PriorIsBefore` | common/lattice.cpp:951-963 | the symbol at the prior vertex of a boundary ends at that boundary |
| `LatticeUpdates.RunsAnswerFilters` | common/lattice.cpp:371-445 | after any run of additions, queries, loose vertices and appended text, queries are sublists of filters, and filters if no step enlarged the tags of an explicit edge |
| `LatticeUpdates.AfterAddIsOk` | common/lattice.cpp:125-339 | adding keeps all invariants, answers with an edge between the two vertices, and rejects exactly loops and reversed edges for these reasons |
| `LatticeUpdates.AfterAddGrows` | common/lattice.cpp:125-339 | edges keep their ends and items, tags and partitions only grow, no bit of hidden or visible is cleared, and nothing new is missed without an enlarging merge |
| `LatticeUpdates.AddedIsCarried` | common/lattice.cpp:175-339 | the answered edge has the tags, item and partition asked for, and is the partner if that is an edge of the graph |
| `LatticeAnswers.InheritedTags` | common/lattice.cpp:135-137 | a request without a plane tag inherits every plane tag of every link of its sequence, and nothing else |
| `LatticeAnswers.PlanesAreInherited` | common/lattice.cpp:1101-1125 | the answered edge has them, and without a partner no other plane tags |
| `LatticeAnswers.PartnerIsFirst` | common/lattice.cpp:175-193 | the partner is the first known edge with the plane tags of the request, and missing exactly if there is none |
| `LatticeAnswers.AnsweredEdge` | common/lattice.cpp:205-327 | the whole edge that is answered, new or merged: ends, item, tags, score and partitions; all other edges stay |
| `LatticeAnswers.BitsAfter` | common/lattice.cpp:219-245 | which bits of the symbol edges are set, cleared, hidden and made visible |
| `LatticeAnswers.HiddenAfter` | common/lattice.cpp:236-324 | which symbols of the text are hidden afterwards |
| `LatticeAnswers.CheckReads` | common/lattice.cpp:196-204 | the check for self-reference says exactly whether reading the sequence comes to the edge |
| `LatticeAnswers.RejectedIff` | common/lattice.cpp:139-204 | exactly when a request is accepted, and for which reason it is rejected otherwise |
| `LatticeUpdates.UpgradeRepeats` | common/lattice.cpp:219-223 | a request for more tags whose partner is a symbol edge, whatever its sequence is unless that refers to the partner or cannot be read, adds an edge, and all of this holds again afterwards |
| `LatticeUpdates.RunGrows` | common/lattice.cpp:38-339 | over a whole run edges keep their numbers, ends and items; tags, scores, partitions, text and masks only grow |
| `LatticeRuns.AfterAddMisses` | common/lattice.cpp:125-339 | after an addition something is missed exactly if it was before or the addition merges late |
| `LatticeRuns.FiltersIff` | common/lattice.cpp:125-445 | after any run from an empty lattice, all queries are filters if and only if no addition merged late |
| `LatticeWitnesses.LateRun` | common/lattice.cpp:205-218 | a run of four steps after which a query does not find a matching edge |
| `LatticeDuplicates.AcceptedUpdates` | common/lattice.cpp:175-339 | the set of edges of the request's key afterwards: the answered edge is in it, a symbol edge that was the partner is not, unless it is the answer; and whether the answer is a symbol edge |
| `LatticeDuplicates.OneMoreIff` | common/lattice.cpp:175-339 | there is one edge more exactly if the request has no partner or its partner is a symbol edge that is not there any more; else as many |
| `LatticeWitnesses.PlaneRun` | common/lattice.cpp:178-187 | a run that ends with two edges in different planes for one key |
| `LatticeWitnesses.StaleRun` | common/lattice.cpp:219-223 | a run that ends with two edges in the same plane for one key, in place of a symbol edge |
| `LatticeUpdates.MatchingIsFound` | common/lattice.cpp:371-445 | as long as nothing is missed, every matching edge is found at both its ends |
| `LatticeUpdates.EdgesAtDenote` | common/lattice.cpp:371-445 | a query answers only with edges that leave or enter the vertex asked for |
| `LatticeUpdates.IndexedAnswers` | common/lattice.cpp:916-943 | indexing a mask changes no answer |
| `LatticeUpdates.AppendedTextIsOk` | common/lattice.cpp:38-46 | appending text keeps all invariants |
| `Lattice.IndexesAppended` | common/lattice.cpp:309-319 | pushing a new edge to the lists of matching masks at both ends keeps all lists exact |
| `Lattice.IndexesMerged` | common/lattice.cpp:210-218 | a merge needs no change of the lists once late matches count as missed |
| `Lattice.NewVertexHolds` | common/lattice.cpp:270-296 | empty lists are right for a vertex used for the first time |
| `Lattice.Lattice.AddEdge` | common/lattice.cpp:125-339 | the whole new content and the answer or exception, through planes, merging, upgrading of a symbol edge and insertion |
| `Lattice.Lattice.Join` | common/lattice.cpp:194-224 | self-reference is rejected, an explicit edge is merged, a symbol edge is replaced |
| `Lattice.Lattice.CheckSelfReference` | common/lattice.cpp:196-204 | whether the edge itself comes up when its sequence is read |
| `Lattice.Lattice.MergeExplicit` | common/lattice.cpp:205-218 | tags are united, the higher score is kept, a partition is added, and the lists stay valid |
| `Lattice.Lattice.FindIsoplanar` | common/lattice.cpp:178-187 | the first known edge in the same plane |
| `Lattice.Lattice.GatherPlaneTags` | common/lattice.cpp:1101-1125 | the plane tags of all links |
| `Lattice.Lattice.ShowSymbols` | common/lattice.cpp:236-245 | a second symbol edge makes the positions visible |
| `Lattice.Lattice.Insert` | common/lattice.cpp:226-327 | a plain symbol becomes a bit, everything else an edge of the graph |
| `Lattice.Lattice.AppendEdge` | common/lattice.cpp:260-327 | the graph, the hidden bits and the lists at both ends after an addition |
| `Lattice.Lattice.AddLooseVertex` | common/lattice.cpp:73-86 | a new loose vertex with an empty list for each mask |
| `Lattice.Lattice.AppendString` | common/lattice.cpp:38-46 | longer text, everything else unchanged and valid |
| `Lattice.Lattice.AddTagMaskIndex` | common/lattice.cpp:916-943 | the index of the mask; a new mask gets its filter at every vertex |
| `Lattice.Lattice.OutEdges` | common/lattice.cpp:371-403 | the answer through the lists is the specified one, the content is unchanged but for the indexed mask |
| `Lattice.Lattice.InEdges` | common/lattice.cpp:405-445 | the same for incoming edges, with the symbol edge of the prior vertex |
| `Lattice.Lattice.FirstOutEdge` | common/lattice.cpp:497-510 | the first outgoing edge, or none for the exception |
| `Lattice.Lattice.FirstInEdge` | common/lattice.cpp:512-524 | the first incoming edge, or none for the exception |
| `Lattice.Lattice.PriorVertex` | common/lattice.cpp:951-963 | the position of the last non-trail byte before the vertex |
| `EdgeSequences.BuildThenRead` | common/lattice.cpp:1022-1051 | what reading gives for every list that is built: the list, or, where a range was kept, the edges behind the last break |
| `EdgeSequences.ReadBackIff` | common/lattice.cpp:1022-1169 | reading gives the list back if and only if it is not mistaken and, where a range is kept, has no roles |
| `EdgeSequences.NeverReturnsIsRead` | common/lattice.cpp:1142-1161 | lists whose later edges do not begin at the front of the text are not mistaken |
| `EdgeSequences.ForwardNeverReturns` | common/lattice.cpp:1142-1161 | forward lists do not return to the front |
| `LatticeWitnesses.LostRun` | common/lattice.cpp:1142-1169 | a run after which a list of three symbols is compressed to one |
| `EdgeSequences.RangeKept` | common/lattice.cpp:1142-1161 | exactly when the builder goes on keeping a range, and from where to where |
| `EdgeSequences.RestIsChain` | common/lattice.cpp:1142-1161 | the symbols behind the last break follow one another up to the end of the range |
| `EdgeSequences.ChainIsRead` | common/lattice.cpp:1034-1044 | reading the range of a chain of symbols gives the chain |
| `EdgeSequences.AccessAgrees` | common/lattice.cpp:1053-1140 | `firstEdge`, `lastEdge`, `nthEdge` and `size` agree with the list that was built unless it is mistaken, and then the size does not |
| `EdgeSequences.NthSymbol` | common/lattice.cpp:1075-1087 | advancing by symbols and counting symbols agree with reading |
| `EdgeSequences.PathIsReadBack` | common/lattice.cpp:783-805 | reading the sequence of a path gives the path |
| `LatticePaths.Builder.AddEdge` | common/lattice.cpp:1142-1161 | the builder follows its specification |
| `LatticePaths.Builder.Build` | common/lattice.cpp:1163-1169 | a range if one was kept, the links otherwise |
| `LatticePaths.Iterator.constructor` | common/lattice.cpp:1012-1020 | what is left to read is the whole sequence |
| `LatticePaths.Iterator.HasNext` | common/lattice.cpp:1022-1028 | true exactly if something is left |
| `LatticePaths.Iterator.NextUsage` | common/lattice.cpp:1034-1051 | the first usage that is left, and the rest stays |
| `LatticePaths.ReadAll` | common/lattice.cpp:646-653 | the iteration loop gives exactly the usages of the sequence |
| `LatticePaths.FirstEdge` | common/lattice.cpp:1053-1062 | the first edge, compressed or not |
| `LatticePaths.LastEdge` | common/lattice.cpp:1064-1073 | the last edge, compressed or not |
| `LatticePaths.NthEdge` | common/lattice.cpp:1075-1091 | the edge with a number, compressed or not |
| `LatticePaths.SizeOf` | common/lattice.cpp:1131-1140 | the number of links or of symbols |
| `LatticePaths.GetPath` | common/lattice.cpp:783-805 | if the walk along the last matching edges comes to no vertex twice, the loop ends and gives the built path and its last vertex, loose vertices included |
| `LatticeWalks.WalkEndsIff` | common/lattice.cpp:783-805 | the walk ends, and within the number of bytes and loose vertices, if and only if it comes to no vertex twice; otherwise there is a next step after any number of steps |
| `LatticeWalks.CircleGoesOn` | common/lattice.cpp:783-805 | around a circle of any length there is always a next step |
| `LatticeWalks.LongWalkCircles` | common/lattice.cpp:783-805 | a walk of more steps than that comes to some vertex twice |
| `LatticeWalks.CirclePassesLoose` | common/lattice.cpp:783-805 | every circle passes a loose vertex |
| `EdgeSequences.OverTextEnds` | common/lattice.cpp:783-805 | without edges at loose vertices a walk takes no more steps than there are bytes ahead |
| `LatticeWitnesses.LooseRun` | common/lattice.cpp:73-86 | a run after which the walk circles between two loose vertices |
| `LatticeWitnesses.MixedRun` | common/lattice.cpp:73-86 | a run after which it circles between a position of the text and the only loose vertex |
| `LatticePaths.PathIsPath` | common/lattice.cpp:783-805 | the path has no gaps, follows the last matching edge each time and ends where none goes on |
| `Getopt.Scanner.Exchange` | maxent/getopt.c:302-380 | the two adjacent blocks change places in order, all else stays, for all block lengths |
| `Getopt.ShortBottom` | maxent/getopt.c:340-356 | one round with a short bottom block leaves a smaller exchange of the same kind |
| `Getopt.ShortTop` | maxent/getopt.c:357-373 | one round with a short top block leaves a smaller exchange of the same kind |
| `Getopt.PlaceBottom` | maxent/getopt.c:342-355 | the element swaps of that round |
| `Getopt.PlaceTop` | maxent/getopt.c:359-372 | the element swaps of that round |
| `Getopt.Scanner.SkipOperands` | maxent/getopt.c:551-574 | options just processed go before the operands skipped earlier, then operands are skipped up to the next option |
| `Getopt.Scanner.TakeTerminator` | maxent/getopt.c:581-592 | `--` is moved before the operands and the rest become operands |
| `Getopt.Scanner.Advance` | maxent/getopt.c:547-604 | permutation, bounds, and at the end of the arguments the stable partition |
| `Getopt.Scanner.Next` | maxent/getopt.c:547-622 | what one call keeps, consumes and reports, and where `optind` stands at the end; `last_nonopt <= optind` there exactly if there are no operands; the argument reported is the next element exactly if the option wants one |
| `Getopt.Scanner.ScanAll` | maxent/getopt.c:547-604 | calls until -1 end, and leave options with arguments first and operands behind, both in order |
| `Getopt.ShortOptionsAdvance` | maxent/getopt.c:779-928 | what is assumed of decoders can be met: decoding short options moves forward |
| `Getopt.OneOption` | maxent/getopt.c:594-622 | an option comes with the next element exactly if it ends by asking for an argument and there is one |
| `Getopt.SplitExample` | maxent/getopt.c:547-928 | a whole command line split by short options with and without arguments |
| `Getopt.StableSplit` | maxent/getopt.c:547-604 | options and operands make up the arguments, each in its original order |
| `Getopt.ExchangeKeeps` | maxent/getopt.c:563-564 | an exchange keeps the state of the scan |
| `Getopt.OptionKeeps` | maxent/getopt.c:617-622 | consuming an option and its argument keeps the state of the scan |
| `Getopt.ScanComplete` | maxent/getopt.c:597-604 | the state at the end of the arguments is the partition |
| `Getopt.TerminatorCompletes` | maxent/getopt.c:581-592 | so is the state after `--` |
| `SegmentGlob.SegmentGlob.Matches` | common/segment_glob.cpp:9-55 | true for all segments in the language of the glob over UTF-8 symbols, and for no others unless the segment is deceptive; exactly the language over bytes when every `?` steps over one byte; without `*` and `?` exactly for the glob itself |
| `SegmentGlob.SegmentGlob.MatchWild` | common/segment_glob.cpp:14-55 | the three loops end and compute the greedy matcher |
| `SegmentGlob.SegmentGlob.CheckIfFixed` | common/segment_glob.cpp:65-68 | the flag is set exactly for globs without `*` and `?` |
| `GlobLanguage.GreedyIsLanguage` | common/segment_glob.cpp:32-54 | over any alphabet, retrying only the most recent star loses no match and adds none |
| `GlobLanguage.HeadIsLanguage` | common/segment_glob.cpp:20-54 | over any alphabet, the whole matcher decides the language |
| `GlobMatcher.HeadIsLanguage` | common/segment_glob.cpp:20-54 | the byte matcher decides the language over bytes when every `?` steps over one byte |
| `GlobMatcher.BytesTry` | common/segment_glob.cpp:39-48 | from the beginning of a symbol on, an attempt on bytes is one on symbols |
| `GlobMatcher.InsideTry` | common/segment_glob.cpp:39-48 | what an attempt from inside a symbol comes to |
| `GlobMatcher.ScanOnBytes` | common/segment_glob.cpp:32-50 | unless the segment is deceptive, retrying from every byte gives what retrying from every symbol does |
| `GlobMatcher.ScanIsComplete` | common/segment_glob.cpp:32-50 | on every segment it finds a match if there is one |
| `SymbolGlobs.LanguageIsAccepted` | common/segment_glob.cpp:14-55 | no segment of the language over symbols is refused |
| `SymbolGlobs.AcceptedIsLanguage` | common/segment_glob.cpp:14-55 | on segments that are not deceptive exactly the language over symbols is accepted |
| `SymbolGlobs.ShortSymbolsAreDecided` | common/segment_glob.cpp:14-55 | in particular if no symbol takes more than two bytes |
| `SymbolGlobs.DeceptiveIsMisread` | common/segment_glob.cpp:39-48 | every deceptive segment is accepted for a glob that asks for more symbols than it has |
| `SymbolGlobs.DecidedIff` | common/segment_glob.cpp:14-55 | all globs are decided right on a segment if and only if it is not deceptive |
| `GlobLanguage.LaterStarDecides` | common/segment_glob.cpp:33-38 | once the stretch between two stars fits, only the later star matters |
| `GlobLanguage.StarSwallows` | common/segment_glob.cpp:45-48 | after a failed attempt the star takes one more symbol |
| `SymbolGlobs.RetriesInsideSymbols` | common/segment_glob.cpp:39-48 | a segment that is accepted and outside the language over symbols, because of a three-byte symbol |
| `GlobMatcher.WellFormedSteps` | common/segment_glob.cpp:39-41 | well-formed text is never overrun |
| `Md5.Md5.Update` | common/md5.cpp:252-285 | state, buffer and counter stand for the longer message |
| `Md5.Md5.Process` | common/md5.cpp:262-284 | all complete blocks are absorbed and the tail is buffered |
| `Md5.Md5.Finalize` | common/md5.cpp:299-331 | the digest of the whole message once, and no change on a second call |
| `Md5.Md5.FromText` | common/md5.cpp:112-117 | the digest of the text |
| `Md5.Md5.constructor` | common/md5.cpp:121-133 | the empty message |
| `Md5.Encode` | common/md5.cpp:149-157 | words as bytes, low-order byte first |
| `Md5.Decode` | common/md5.cpp:138-143 | the words that `encode` turns into these bytes |
| `Md5.FourBytes` | common/md5.cpp:149-157 | the shifts and masks of `encode` give the little-endian bytes |
| `Md5.FourBytesValue` | common/md5.cpp:138-143 | the shifts of `decode` give the little-endian value |
| `Common.BytesOfValue` | common/md5.cpp:138-157 | encoding undoes decoding, for any number of bytes |
| `Md5.AbsorbAppend` | common/md5.cpp:274-276 | absorbing can be resumed at any block boundary |
| `Md5.AbsorbMessage` | common/md5.cpp:262-284 | the buffered tail with the new input gives the state of the whole message |
| `Md5.AddBitsCounts` | common/md5.cpp:257-260 | the two-word counter stays 8 times the number of bytes modulo 2^64 |
| `Md5.LowWord` | common/md5.cpp:255 | the low word gives the number of buffered bytes |
| `Md5.CounterBytes` | common/md5.cpp:308-318 | the eight bytes appended are the bit length |
| `Md5.PaddedParts` | common/md5.cpp:312-318 | padding and length as appended are those of the standard |
| `Md5.PaddedShape` | common/md5.cpp:299-318 | the padded message byte by byte, the shortest made of whole blocks |
| `Md5.DigestShape` | common/md5.cpp:121-133 | the initial state, and the order of the words and bytes of the digest |
| `Md5.OneBlockDigest` | common/md5.cpp:299-331 | the digest of a message of less than 56 bytes is one transformation |
| `Md5.WrapDecides` | common/md5.cpp:275 | the 32-bit loop test is right if and only if the sum does not wrap at the last block |
| `Cutter.Cutter.CutOff` | common/cutter.hpp:110-135 | one call cuts off the text between the two positions, within the hard limit and without passing a space behind the soft limit, at the cut point of a segment that is too long, or throws exactly for a symbol that is too long |
| `Cutter.Cutter.GetFirstItemInFragmentQueue` | common/cutter.hpp:138-151 | the first pending fragment is the text from the position on, and the rest stays pending |
| `Cutter.Cutter.FragmentSegment` | common/cutter.hpp:154-191 | the queued fragments tile the segment, or the part before the first symbol that is too long |
| `Cutter.Cutter.NextCutPoint` | common/cutter.hpp:163-185 | the cut point is the end of the fragment, which is described by `FragmentEndProperties` |
| `Cutter.Cutter.FindSoftLimitCutPoint` | common/cutter.hpp:194-210 | the first space from the soft limit on |
| `Cutter.Cutter.FindHardLimitCutPoint` | common/cutter.hpp:213-240 | the largest symbol boundary not past the limit, found from a start that may be inside a symbol; throws exactly if there is none after the cut point |
| `Cutter.Cutter.CutAll` | common/cutter.hpp:110-191 | repeated calls tile the text with non-empty stretches between boundaries within the limit, and get to its end if and only if no symbol of the text is too long |
| `Cutter.FragmentEndProperties` | common/cutter.hpp:163-185 | a fragment ends at the end of the segment, at the first space from the soft limit on or at the last symbol within the hard limit, whichever comes first; it is empty exactly if its first symbol is too long |
| `Cutter.OneCutPoint` | common/cutter.hpp:163-185 | there is one such position only |
| `Cutter.FragmentsTile` | common/cutter.hpp:187-189 | queued fragments concatenate to the text they stand for |
| `Cutter.FragmentedHasNone` | common/cutter.hpp:234-237 | a segment that could be fragmented has no symbol that is too long |
| `Cutter.LongIsOverThree` | common/cutter.hpp:218-237 | a hard limit of four or more fits every symbol |
| `Utf8.WellFormedIffParses` | common/string_helpers.cpp:14-22 | the position test holds exactly for concatenations of symbols |
| `Utf8.LeadBytes` | common/string_helpers.cpp:14-22 | the ranges of lead bytes for each length, and of trail bytes |
| `Utf8.NextBoundary` | common/string_helpers.cpp:14-22 | stepping by `symbolLength` goes from boundary to boundary |
| `Utf8.BoundaryAhead` | common/cutter.hpp:227-232 | from inside a symbol a step moves one byte, and a boundary is at most three bytes away |
| `Utf8.TextOfSymbols` | common/string_helpers.cpp:14-22 | a list of symbols is a well-formed text, and the only list for that text |
| `Tiniconv.Context.TiniconvConvert` | tiniconv/tiniconv.c:59-132 | status, consumption, output and codec states are those of the specification, and the status says why the call ended where it did |
| `Tiniconv.StatusMeans` | tiniconv/tiniconv.c:59-132 | for each status what the codecs say about the input and the room that are left |
| `Tiniconv.CallIsExplained` | tiniconv/tiniconv.c:59-132 | what was consumed is a sequence of encoded and replaced characters, shifts and skipped bytes, whose bytes make up the output |
| `Tiniconv.OneExplanation` | tiniconv/tiniconv.c:59-132 | no other outcome has such an explanation |
| `Tiniconv.Resume` | tiniconv/tiniconv.c:59-132 | stopping for lack of room and resuming with the same context is one call |
| `Tiniconv.EnoughRoom` | tiniconv/tiniconv.c:59-132 | a call that finished has the same outcome with any larger buffer |
| `Tiniconv.PiecesAreOneCall` | tiniconv/tiniconv.c:59-132 | however the output is cut into buffers, pieces that finish are one call |
| `Tiniconv.StepWithMoreRoom` | tiniconv/tiniconv.c:92-123 | more room changes a turn only if there was too little |
| `Tiniconv.AsciiObeysLaws` | tiniconv/tiniconv.h:36-67 | what is assumed of the codecs can be met |
| `MaxentParams.BuildParams` | maxent/maxentmodel.cpp:239-268 | the table numbered in the order of predicates and outcomes, and the number of features |
| `MaxentParams.BuildParams2` | maxent/maxentmodel.cpp:273-307 | the same table |
| `MaxentParams.CollectFeatures` | maxent/maxentmodel.cpp:246-254 | exactly the pairs that occur in an event |
| `MaxentParams.GroupFeatures` | maxent/maxentmodel.cpp:280-296 | exactly the pairs that occur, grouped by predicate |
| `MaxentParams.CollectRow` | maxent/maxentmodel.cpp:259-265 | one row: its outcomes ascend and its feature ids count on |
| `MaxentParams.BuildRow` | maxent/maxentmodel.cpp:300-305 | one row from the set of outcomes |
| `MaxentParams.TablesEqual` | maxent/maxentmodel.cpp:239-307 | two numbered tables of the same events are equal, so the builders cannot differ |
| `MaxentModelFile.RoundTrip` | maxent/modelfile.cpp:235-391 | a saved model is loaded unchanged if and only if the format allows it and its features are numbered from 0 in order |
| `MaxentModelFile.LoadSaved` | maxent/modelfile.cpp:235-391 | loading gives the model with its features numbered anew |
| `MaxentModelFile.LoadedIsNumbered` | maxent/modelfile.cpp:235-294 | whatever is loaded is numbered and could have been saved |
| `MaxentModelFile.TrainedRoundTrip` | maxent/modelfile.cpp:235-391 | a trained model survives saving and loading exactly |
| `MaxentModelFile.NumberedIsFixed` | maxent/modelfile.cpp:268-283 | renumbering changes nothing exactly for numbered tables |
| `MaxentModelFile.TakeNamesBytes` | maxent/modelfile.cpp:253-266 | distinct names of at most 4096 bytes are read back |
| `Common.ValueOfBytes` | maxent/modelfile.cpp:356-390 | a number is read back from its bytes if they are enough |
| `MaxentModelFile.MaxentModelFile.SaveModelBin` | maxent/modelfile.cpp:345-391 | the bytes of the format, appended to the file |
| `MaxentModelFile.MaxentModelFile.LoadModelBin` | maxent/modelfile.cpp:235-294 | predicates, outcomes, parameters and weights as the format says |
| `MaxentLayout.LayoutIff` | maxent/modelfile.cpp:345-391 | the saved files are exactly those with a 16-byte header, then the counted predicates, the counted outcomes, a row for each predicate and the counted weights |
| `MaxentLayout.LoadLayout` | maxent/modelfile.cpp:235-294 | from every file with this layout the model is loaded, numbered anew |
| `MaxentLayout.LoadableIff` | maxent/modelfile.cpp:235-294 | what the format asks of a model |
| `MaxentLayout.RepeatedNames` | maxent/modelfile.cpp:252-266 | of repeated names the first is kept, in order |
| `MaxentModelFile.MaxentModelFile.ReadNames` | maxent/modelfile.cpp:252-258 | names in order, each kept once |
| `MaxentModelFile.MaxentModelFile.ReadParams` | maxent/modelfile.cpp:268-283 | rows with feature ids counted over all rows |
| `MaxentModelFile.MaxentModelFile.ReadTheta` | maxent/modelfile.cpp:285-292 | as many weights as there are features |
| `Morfologik.ExpandDescriptions` | common/morfologik_tags_parser.cpp:169-188 | the Cartesian product of the parts, in order, exactly if the counter is the number of dotted values |
| `Morfologik.ExpandSingleDescription` | common/morfologik_tags_parser.cpp:190-224 | one description for each part of the first dotted value, all else copied |
| `Morfologik.GetLengthOfFirstComplexAttribute` | common/morfologik_tags_parser.cpp:303-317 | the number of parts of the first dotted value, or 0 |
| `Morfologik.ExpandKeepsProduct` | common/morfologik_tags_parser.cpp:190-224 | expanding one value keeps the product and its order |
| `Morfologik.ProductMembers` | common/morfologik_tags_parser.cpp:169-188 | the product holds exactly the combinations, as many as the part counts multiply to |
| `Morfologik.ProductAt` | common/morfologik_tags_parser.cpp:169-224 | which combination stands at which position |
| `Morfologik.ProductNonEmpty` | common/morfologik_tags_parser.cpp:169-188 | there is a combination, and none has dots left |
| `Morfologik.LevelsAre` | common/morfologik_tags_parser.cpp:175-185 | too few turns leave dots, too many leave nothing |
| `Morfologik.ExpandedIsProduct` | common/morfologik_tags_parser.cpp:169-188 | the exact condition on the counter |
| `Morfologik.JoinSplit` | common/morfologik_tags_parser.cpp:208-209 | splitting loses nothing |
| `Morfologik.SplitJoin` | common/morfologik_tags_parser.cpp:208-209 | splitting what was joined gives the parts |
| `Morfologik.ParseSimple` | common/morfologik_tags_parser.cpp:226-249 | the description, ordered by category, and the number of dotted attributes |
| `Morfologik.CountedAndKept` | common/morfologik_tags_parser.cpp:291-301 | the counter is right exactly if every dotted attribute is recognized and the first of its category |
| `Morfologik.Parse` | common/morfologik_tags_parser.cpp:154-167 | all combinations exactly in that case, and nothing otherwise |
| `MorfologikForms.SecondGenderIsLost` | common/morfologik_tags_parser.cpp:154-167 | a tag of which nothing comes out though its description has combinations |
| `MorfologikForms.RemoveLexemeAttributes` | common/morfologik_tags_parser.cpp:140-152 | the categories of the lexeme and the part of speech are erased, and the counter is lowered for the dotted ones but the part of speech |
| `MorfologikForms.FormMembers` | common/morfologik_tags_parser.cpp:140-152 | exactly which entries are erased for nouns, verbs and others |
| `MorfologikForms.TwoReadings` | common/morfologik_tags_parser.cpp:154-224 | the description of a tag and its combinations, in order |
| `MorfologikForms.DescribedMembers` | common/morfologik_tags_parser.cpp:226-249 | the description holds exactly the recognized attributes that are the first of their category |
| `MorfologikForms.FormCondition` | common/morfologik_tags_parser.cpp:120-152 | the condition of `GetFormAttributes` is that of `Parse` and that the part of speech has no dot |
| `MorfologikForms.GetFormAttributes` | common/morfologik_tags_parser.cpp:120-138 | all combinations of what is left exactly if every dotted attribute is recognized, the first of its category and no part of speech; nothing otherwise |
| `MorfologikForms.DottedPosIsLost` | common/morfologik_tags_parser.cpp:120-152 | a tag with a dotted part of speech, of which `parse` gives all combinations and `getFormAttributes` none |
| `EditDistance.LevenshteinDistance` | common/edit_distance.hpp:8-26 | the two-row loop computes the recurrence |
| `EditDistance.ShortestScript` | common/edit_distance.hpp:16-23 | a script of insertions, deletions and substitutions of that length exists |
| `EditDistance.NoShorterScript` | common/edit_distance.hpp:16-23 | and none is shorter |
| `EditDistance.Symmetric` | common/edit_distance.hpp:8-26 | the distance is symmetric |
| `EditDistance.ZeroIffEqual` | common/edit_distance.hpp:8-26 | it is zero only for equal strings |
| `EditDistance.Triangle` | common/edit_distance.hpp:8-26 | the triangle inequality |
| `EditDistance.EditNear` | common/edit_distance.hpp:8-26 | one edit changes the distance to any string by at most one |
| `EditDistance.FindTheMostSimilarString` | common/edit_distance.hpp:28-42 | the first nearest element, or the default string if none is nearer than 99 |

## Left out

- Lattice.Lattice.AddEdge: the edge counters (`edgeCounterHash_`, `countEdges`) are not modelled; they over-count when a symbol edge is upgraded.
- Lattice.Lattice.ShowSymbols: bits are sets of positions, so writes at loose vertices, outside the bit set in the original, are plain set members here.
- Lattice.Lattice.OutEdges: answers are lists; iterators that stay open while the lattice changes are not modelled.
- MaxentModelFile.MaxentModelFile.LoadModelBin: only for files the program can read: truncated files, names over 4096 bytes, files without predicates and a wrong number of features end in undefined reads or failed assertions.
- SegmentGlob.SegmentGlob.Matches: the segment up to its first NUL must not end inside a symbol, where the original reads past its end.
- Getopt.ShortOption: the `W;` extension and long options; decoding is any function that consumes one option character or ends the element.
- Md5.Md5.Update: each input must not make the 32-bit loop test wrap (`NoWrap`), and `update` after `finalize` is not modelled.
- Tiniconv.Context.TiniconvConvert: the flush and reset functions of the codecs and the codecs themselves; any pair that meets the assumptions (`ObeysLaws`, and no change of state on a failure) is covered, ASCII is given as an instance. `tiniconv.h` documents the result codes only.
- AutoCompleter.AutoCompleter.Complete: stated for plans on which the search ends (`Completable`), as a method has to; scores are real numbers, and creating a processor has no effect but its failure.
- AutoCompleter.AutoCompleter.GetDefaultPromise: default options are not parsed; a factory has a default promise with its own tags, and setting a language keeps the tags.
- Loading of shared libraries, file systems, compression, servers, plugins, logging, and the Perl and Java bindings.
- `MD5::transform` and `hexdigest`: the transformation is a parameter, the hexadecimal form a formatting step.
- The text model format and the training of models: floating-point printing and arithmetic; weights are opaque eight-byte words.
- `check_modeltype`: the header of a model file is opaque.
- `addSymbols`, `getFirstVertex`, `getLastVertex`, the sorted iterators, `correctionInsert`, `correctionErase`, `correctionReplace` and `getPathWithSkipping`: they combine the modelled operations or depend on topological sorting.
- `getLexemeAttributes`: table lookups around the modelled description.
- `StringFrag`: texts are plain byte strings.
