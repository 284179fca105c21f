# Release and tooling cores

Dafny models of the self-contained cores of the release and tooling code, with proofs of what they keep over every input, run or reachable state.

- **Publishing** (`DependencyGraph`, `PublishProtocol`, `PublishSlots`, `PublishLocks`, `PublishRequests`, `PublishOutcome`, `PublishRuns`, `PublishHistory`, `PublishRunner`). Jobs pack and publish under a first-come semaphore, packing takes a keyed lock while it holds a slot, and publishing waits for prerequisites without one. The protocol is a state machine whose steps are taken in any order; the class `Publisher` updates its fields in place and is proved to take the same steps.
- **Inlining** (`ConditionSyntax`, `GuardInversion`, `GuardSemantics`, `GuardExactness`, `StrictInlining`, `InlineReplacement`, `InlinePlanner`, `InlineCapture`). Guards are inverted as token text with a precedence level and minimal parentheses, read back by a parser, and evaluated with effects; strict inlining is compared with the call over a small language whose evaluation records every effect.
- **Changelogs** (the modules whose names begin with `Changelog`, and `ArchiveFooter`). Parsing, rendering, items, merging, promotion, the whole fix, and the collapse into a byte budget, on concrete strings.
- **Fast forms of simple specifications**: edit application (`EditApplication`, `Utf8Encoding`), clone classes, regions and reports (`CloneClusters`, `CloneRegions`, `CloneDetection`), line ranges and replay (`LineIntervals`, `ReadReplay`), reservoir sampling (`ReservoirSampling`), stamping and re-signing of a binary (`VersionStamp`, `CodeSignature`, `SignatureLayout`, `SignedImage`, `NativeStamp`, `StampedImage`), the chunked stream and the cpio reader (`ByteStream`, `CpioExtract`; the odc form is the "cpio Interchange Format" of the pax utility in IEEE Std 1003.1), and the rewriting of prompts (`RewritePlan`, `WorkerPool`, `RewriteRun`, `RewriteFile`, `RewriteBreaks`).

`Wrappers` holds what the models share. `dafny verify dfyconfig.toml` checks everything.

Where the code falls short of what its comments say, the code is modelled as it is:

- A negated guard is called its logical complement (`scripts/inline-functions.ts:314`). Flipping `<`, `>`, `<=` or `>=` is none when an operand is NaN or undefined; `InversionIsExact` gives the exact condition, `UnsafeHasCounterexample` an environment for every violation.
- Strict hoisting is called exact (`scripts/inline-functions.ts:869-871`). Planned names are fresh for the block of the call but not for the helper's body; `PlanIsExactIff` gives the exact condition over names that are known before the call, and `TemporaryCapturesBodyName` the plan of a call that fails it.
- A second fix of a changelog need not be a no-op. `FixTwiceExactly` gives the exact condition on the sections as written, `MergeTwice` the one for categories, and `SecondFixClosesGap` and `SecondFixDropsItem` a changelog for each half of it.
- Appending a category that begins with plain text changes the last item of the category it is merged into. `AppendedItems` gives the exact condition, `MergeKeepsItemsIff` the one for a whole section, and `ChangelogEntries.FixedItems` the entries of the fixed changelog in any case.
- A version that contains the stamp magic makes the next stamp fail; `RestampIsStamp` gives the exact condition, and `RestampSigned` the one for signed images, where a digest may spell it too.
- The comment above `rewriteAll` (`scripts/rewrite-system-prompt.ts:274-276`) promises that a text that drops a token is not used. Only the requests check texts (lines 437-442), and `rewriteAll` takes any rewriter: `TokensKeptIff` says exactly when the promise is kept, `TokenIsLost` is a line on which it is not, and `CheckedKeepsTokens` proves it for the script's own requests.
- A text with a line break moves all later lines; `LinesKeepTheirPlaces` gives the exact condition and the number of lines.

## Model

| member | source | states |
|---|---|---|
| DependencyGraph.AssertAcyclic | scripts/ci-release-publish.ts:533-545 | an error exactly if the graph of known names has a cycle; the reported chain closes a cycle; otherwise there is a topological order |
| DependencyGraph.CycleChecker.Visit | scripts/ci-release-publish.ts:536-543 | the depth-first search: what is being visited is the current chain, what is done is closed and in topological order, and an error hands up a chain that closes a cycle |
| DependencyGraph.TopologicalIsAcyclic | scripts/ci-release-publish.ts:533-545 | a graph with a topological order has no cycle, so the two outcomes of the check exclude each other |
| DependencyGraph.PathDescends | scripts/ci-release-publish.ts:537-541 | along any dependency path the position in the order only falls |
| PublishSlots.StepKeepsSlots | scripts/ci-release-publish.ts:512-531 | every step of every job keeps the slot count equal to the jobs inside a section, below the limit, with nobody queued while a slot is free |
| PublishSlots.NoBarging | scripts/ci-release-publish.ts:515-528 | arrivals and grants only grow, and while a section is queued the next grant goes to the head of the queue |
| PublishLocks.MutualExclusion | scripts/ci-release-publish.ts:388-402 | two jobs holding the lock of one key are the same job |
| PublishLocks.LockFreeInTurn | scripts/ci-release-publish.ts:388-402 | a request that may go on has only released requests of its key before it: the promise chain is first come, first served |
| PublishLocks.StepKeepsLocks | scripts/ci-release-publish.ts:388-402 | every step of every job keeps the chains of the keyed mutex and the turn of each request |
| PublishLocks.SomeContenderMoves | scripts/ci-release-publish.ts:441-443 | packing waits for a lock while it holds a slot, and yet while anybody waits for a lock some contender can move |
| PublishRequests.StepKeepsRequests | scripts/ci-release-publish.ts:439-443 | at every step exactly the jobs with a key that do not fail before packing have asked for their lock, each before it goes on |
| PublishRequests.PackedUnderLock | scripts/ci-release-publish.ts:439-443 | such a job that is past packing has asked for the lock and has given it back |
| PublishOutcome.MustPublishUnfolds | scripts/ci-release-publish.ts:572-579 | publishing all transitive prerequisites and their phases succeeding is the same as the job's own phases succeeding and each direct prerequisite having to publish |
| PublishOutcome.StepKeepsOutcomes | scripts/ci-release-publish.ts:565-587 | every step keeps the sets of started, published and discarded jobs in line with the phases and with what the plan promises |
| PublishOutcome.StartedAfterDependencies | scripts/ci-release-publish.ts:572-579 | a job whose publish has started has everything it depends on, directly or not, already published |
| PublishOutcome.StartedAfterListed | scripts/ci-release-publish.ts:572-579 | in terms of the names a job lists: its publish starts only after each of them that is in the run has been published |
| PublishOutcome.FailedPackStartsNothing | scripts/ci-release-publish.ts:445-453 | a job whose pack fails, before the lock or after it, is neither started, published nor discarded, and nothing that depends on it is started or published |
| PublishOutcome.PromiseOrFailure | scripts/ci-release-publish.ts:569-579 | a job is promised to publish exactly if neither it nor anything it depends on fails in packing, before or after the lock, or in publishing |
| PublishOutcome.DiscardedNeverStarts | scripts/ci-release-publish.ts:574-579 | no job is both started and discarded; only a started job is published |
| PublishOutcome.SettledOutcome | scripts/ci-release-publish.ts:569-589 | when all jobs have settled the published set is exactly the promised one, and the discarded jobs are exactly the packed ones with a failed prerequisite |
| PublishRuns.StepKeepsInvariant | scripts/ci-release-publish.ts:556-590 | one step of any job keeps slots, locks and outcomes together |
| PublishRuns.Progress | scripts/ci-release-publish.ts:556-590 | while some job has not settled, some job of an acyclic plan is enabled |
| PublishRuns.StuckOnlyWhenSettled | scripts/ci-release-publish.ts:556-590 | a reachable state is stuck exactly if all jobs have settled: hold-and-wait does not deadlock |
| PublishRuns.ScheduleShrinksWork | scripts/ci-release-publish.ts:556-590 | every schedule is paid for by the remaining work, so none runs forever |
| PublishRuns.RunsTerminate | scripts/ci-release-publish.ts:556-590 | a run takes at most eleven steps a job, and can stop only with every job settled |
| PublishRuns.RunsAreSafe | scripts/ci-release-publish.ts:556-590 | in every state of every run: the slot bound, the queue order, one holder a key, every keyed job past packing has had its lock and released it, dependencies published first, discarded jobs never started |
| PublishRuns.FinishedRun | scripts/ci-release-publish.ts:569-589 | a finished run published and discarded exactly what the plan promises |
| PublishHistory.OnlyThroughGate | scripts/ci-release-publish.ts:556-590 | a step takes a job past a gate (pack slot, lock, end of packing, publish slot) only from the gate itself |
| PublishHistory.EveryGateIsPassed | scripts/ci-release-publish.ts:556-590 | in every run a job past a gate was at it before: what is packed was packed holding a slot, and under the lock if it has a key; what is published was published holding a slot |
| PublishHistory.PublishedIsPast | scripts/ci-release-publish.ts:556-590 | a published job is past the publish slot and, if it packs, past the pack slot, the end of packing and the lock of its key |
| PublishRuns.ScheduleIndependence | scripts/ci-release-publish.ts:556-590 | two finished runs, under any two schedules and any two concurrencies, published and discarded the same jobs |
| PublishRunner.Publisher.Enter | scripts/ci-release-publish.ts:515-521 | asking for a slot takes a free one or queues at the end, and is the corresponding step of the protocol |
| PublishRunner.Publisher.Leave | scripts/ci-release-publish.ts:523-528 | leaving hands the slot to the head of the queue, or gives it back |
| PublishRunner.Publisher.RequestLock | scripts/ci-release-publish.ts:390-396 | requesting a lock appends to the chain of its key, waiting on the request before it |
| PublishRunner.Publisher.AdvancePack | scripts/ci-release-publish.ts:430-456 | the packing half of a job, in place, is the protocol step |
| PublishRunner.Publisher.AdvancePublish | scripts/ci-release-publish.ts:572-586 | the publishing half of a job, in place, is the protocol step |
| PublishRunner.Publisher.Advance | scripts/ci-release-publish.ts:565-587 | the in-place step equals the protocol step and keeps the invariant |
| PublishRunner.Publisher.RunToEnd | scripts/ci-release-publish.ts:588 | an arbitrary scheduler ends with every job settled |
| PublishRunner.Publisher.FailedNames | scripts/ci-release-publish.ts:589 | the failed jobs in input order |
| PublishRunner.RunPublishJobs | scripts/ci-release-publish.ts:556-590 | an error exactly for a cyclic plan; otherwise, in input order, exactly the jobs that fail (in packing, before or after the lock, or in publishing) or depend on one that does; what it did is a whole run of the protocol with as many slots as asked for, one at least |
| ConditionSyntax.ParsesText | scripts/inline-functions.ts:303-356 | the text of a well-formed condition, followed by anything that ends it, is read back at its precedence level |
| ConditionSyntax.TextRoundTrip | scripts/inline-functions.ts:303-356 | printing and parsing a condition gives it back |
| ConditionSyntax.OperandsGoToTighter | scripts/inline-functions.ts:303-312 | or, and, equality and comparison bind tighter in that order, operators of one kind group to the left, and a bang takes its operand before any of them |
| GuardInversion.NegateShape | scripts/inline-functions.ts:315-345 | the token text of a negation has the declared precedence and reads as the negated tree |
| GuardInversion.CombinedTextParses | scripts/inline-functions.ts:352-360 | the emitted condition, with and binding tighter than or, parses to exactly the combined negated tree |
| GuardSemantics.NegationComplements | scripts/inline-functions.ts:315-345 | De Morgan and the flipped comparators give the opposite truth value and evaluate the same leaves in the same order |
| GuardSemantics.GuardsAreDisjunction | scripts/inline-functions.ts:352-360 | running the guards one after the other is evaluating their disjunction, short circuits and effects included |
| GuardSemantics.CombinedIsNegation | scripts/inline-functions.ts:352-360 | the combined condition evaluates like the negation of the disjunction of the guards |
| GuardSemantics.CleanRunIsFaithful | scripts/inline-functions.ts:303-356 | a run in which no flipped comparison meets NaN is inverted faithfully |
| GuardSemantics.NumericGuardsAreFaithful | scripts/inline-functions.ts:138-147 | over operands that are all numbers the inversion is exact in value, order and effects |
| GuardExactness.InversionIsExact | scripts/inline-functions.ts:138-147 | the inversion is faithful in every environment exactly if no flipped comparison has an operand that may be NaN: the negation is the logical complement line 314 calls it under that condition only |
| GuardExactness.UnsafeHasCounterexample | scripts/inline-functions.ts:143-146 | whenever the condition fails there is an environment in which the inverted guard differs from the original |
| GuardExactness.SafeGuards | scripts/inline-functions.ts:138-147 | the condition on a guard list is the condition on each guard |
| StrictInlining.StmtsAgree | scripts/inline-functions.ts:294-301 | statements with parameters renamed, run in the caller, do what the body does in the helper |
| StrictInlining.GuardsAgree | scripts/inline-functions.ts:352-360 | renamed guards fire exactly when the helper's guards fire, with the same effects |
| InlineReplacement.PrefixEvaluatesArgs | scripts/inline-functions.ts:848-881 | the hoisted prefix evaluates every argument left to right, once, and holds the used values in its temporaries |
| InlineReplacement.StrictInliningIsExact | scripts/inline-functions.ts:837-900 | prefix, inverted guard and tail have the same final bindings and the same trace of effects as the call, for every world, store and argument list |
| InlinePlanner.FreshName | scripts/inline-functions.ts:501-507 | the base itself if it is free, or else the base with the smallest free suffix from two on |
| InlinePlanner.HoistIsFresh | scripts/inline-functions.ts:848-888 | the temporaries are pairwise different and none is a name taken before them |
| InlinePlanner.HoistArguments | scripts/inline-functions.ts:848-888 | the loop draws the temporaries of the plan: for each hoisted argument, in order, the first free name over the reserved names and the temporaries before it |
| InlinePlanner.RenameCollidingLocals | scripts/inline-functions.ts:793-829 | the loop computes the renaming of the plan: only top declarations that meet a taken name are renamed, each to the first free one |
| InlinePlanner.PlanFacts | scripts/inline-functions.ts:848-899 | for any call, the planned names are pairwise different and fresh for the block, used parameters are all replaced, and declarations left alone meet no live name |
| InlinePlanner.BuildReplacement | scripts/inline-functions.ts:837-900 | what is built for one call is the plan, of the shape proved exact |
| InlineCapture.PlanIsExactIff | scripts/inline-functions.ts:837-900 | the plan has the effects of the call for every helper of a shape over given names, every world and every store, if and only if no planned name is one that the body keeps (a module binding, or a declaration that is not renamed) |
| InlineCapture.PlannedReplacementIsExact | scripts/inline-functions.ts:837-900 | if no planned name is kept by the body, final bindings and trace are those of the call |
| InlineCapture.CapturedFreeName | scripts/inline-functions.ts:874 | a planned name that the body takes from the module gives a helper, a world and a store with different effects |
| InlineCapture.CapturedLocal | scripts/inline-functions.ts:815-818 | so does one that the body declares and the plan does not rename |
| InlineCapture.TemporaryCapturesBodyName | scripts/inline-functions.ts:874 | the plan for a concrete call: the temporary takes the name of a module binding of the body, and the effects differ |
| InlineCapture.PlanKeepsLiveNames | scripts/inline-functions.ts:760-785 | nothing the plan declares in the block of the call meets a name that was live there |
| ChangelogText.LinesRoundTrip | scripts/fix-changelogs.ts:132-138 | lines written out and split again are the same lines, whatever they hold besides line breaks |
| ChangelogText.BreaksAreUnified | scripts/fix-changelogs.ts:132-138 | lines with any line breaks between them, in any mixture, split into the same lines; only a return, an empty line and a feed read as one break |
| ChangelogText.ContentLinesAreLines | scripts/fix-changelogs.ts:132-138 | no line of any content holds a line break, returns included |
| ChangelogText.BlankMeansTrimmedAway | scripts/fix-changelogs.ts:209-215 | a line counts as blank exactly if trimming white space at both ends leaves nothing of it |
| ChangelogText.TrimBlankLines | scripts/fix-changelogs.ts:209-215 | the two index loops take exactly the blank lines at the ends |
| ChangelogText.TrimParts | scripts/fix-changelogs.ts:209-215 | the lines are blank lines, a trimmed core and blank lines |
| ChangelogText.TitleRoundTrip | scripts/fix-changelogs.ts:111-122 | a rendered category heading reads back as its title and is no release heading |
| ChangelogText.ReleaseHeadingIs | scripts/fix-changelogs.ts:107-118 | a line is a release heading exactly if it is two hashes, a blank and a bracketed title with anything after it, and then that is its title |
| ChangelogText.SubsectionHeadingIs | scripts/fix-changelogs.ts:111-122 | a line is a category heading exactly if it is three hashes, white space and text, and then its title is the trimmed text |
| ChangelogText.ListItemIs | scripts/fix-changelogs.ts:124-126 | a line is an item exactly if it is white space, a dash, a blank and anything |
| ChangelogText.TrimOfSpaced | scripts/fix-changelogs.ts:120-122 | trimming takes exactly the white space off both ends |
| ChangelogDocument.ParseReleaseSection | scripts/fix-changelogs.ts:175-207 | the index loops over the body compute the recursive reading of its categories |
| ChangelogDocument.ParseChangelog | scripts/fix-changelogs.ts:144-173 | the index loops over the lines compute the recursive reading of the document |
| ChangelogDocument.RenderChangelog | scripts/fix-changelogs.ts:509-536 | the pushes and pops build exactly the rendered text |
| ChangelogRoundTrip.ParsedIsFormed | scripts/fix-changelogs.ts:144-207 | whatever the content, every line and heading of the parsed document is what its place says |
| ChangelogRoundTrip.SubsectionsBack | scripts/fix-changelogs.ts:509-536 | rendered categories read back as the same categories, up to blank lines and empty ones |
| ChangelogRoundTrip.SectionsBack | scripts/fix-changelogs.ts:509-536 | rendered releases read back as the same releases |
| ChangelogRoundTrip.RenderRoundTrip | scripts/fix-changelogs.ts:509-536 | parsing a rendered document gives it back, up to blank lines, line numbers and empty categories |
| ChangelogRoundTrip.ReformatTwice | scripts/fix-changelogs.ts:144-173 | parsing and rendering a second time changes nothing |
| ChangelogItems.ParseItems | scripts/fix-changelogs.ts:241-271 | the loop finds exactly the items, each from its first line to the next item |
| ChangelogItems.ItemsConcat | scripts/fix-changelogs.ts:241-271 | lines that begin with an item add exactly their items |
| ChangelogItems.ItemsOfTrimmed | scripts/fix-changelogs.ts:241-271 | blank lines around a body make no difference to its items |
| ChangelogItems.CompactAdjacentListSpacing | scripts/fix-changelogs.ts:366-384 | the method computes the compaction its lemmas are about |
| ChangelogItems.CompactKeepsLines | scripts/fix-changelogs.ts:374-381 | compaction keeps the exact sequence of lines that are not blank |
| ChangelogItems.CompactKeepsItems | scripts/fix-changelogs.ts:366-384 | compaction keeps the exact sequence of items |
| ChangelogItems.CompactTwice | scripts/fix-changelogs.ts:366-384 | compacting twice is compacting once |
| ChangelogEditing.CompactIsStable | scripts/fix-changelogs.ts:366-384 | compaction leaves a trimmed body alone exactly if it does not begin with an item or no item follows a blank line |
| ChangelogEditing.LineRangeSet | scripts/fix-changelogs.ts:273-281 | the set holds exactly the line numbers some item spans |
| ChangelogEditing.RemoveItems | scripts/fix-changelogs.ts:635-636 | filtering by that set removes exactly the spanned lines |
| ChangelogEditing.RemovingLeavesOthers | scripts/fix-changelogs.ts:632-636 | removing chosen items by line number leaves exactly the other items, in order, and the lines before the first |
| ChangelogEditing.AppendedKeepsLines | scripts/fix-changelogs.ts:225-239 | appending keeps all lines that are not blank, the old before the new |
| ChangelogEditing.AppendedItems | scripts/fix-changelogs.ts:225-239 | appending adds exactly the items of the source, exactly unless the source begins with other text and the target has an item to absorb it |
| ChangelogMerge.NormalizeSection | scripts/fix-changelogs.ts:386-426 | the loop with its title map computes the merged categories; every category is kept, merged or counted as empty |
| ChangelogMerge.MergeGathers | scripts/fix-changelogs.ts:396-417 | after merging each title occurs once with the exact sequence of its non-blank lines, and no title with lines is missing |
| ChangelogMerge.MergeGathersItems | scripts/fix-changelogs.ts:396-417 | if repeated categories begin with an item, each title keeps the exact sequence of its items |
| ChangelogBodies.MergeJoinsBodies | scripts/fix-changelogs.ts:396-417 | a merged category is the bodies of its title joined in order, and each title with a body has one |
| ChangelogBodies.JoinedSettles | scripts/fix-changelogs.ts:235-238 | joined bodies stay as they are under compaction exactly if the first begins with plain text, or no later one has an item after a blank line or begins with an item after a body that ends with a plain line |
| ChangelogBodies.MergeTwice | scripts/fix-changelogs.ts:396-417 | merging a second time changes nothing if and only if the bodies of every title join cleanly in that sense |
| ChangelogBodies.MergeTwiceWithoutRepeats | scripts/fix-changelogs.ts:396-417 | without repeated titles merging twice is merging once |
| ChangelogBodies.RepeatsTakeTwoPasses | scripts/fix-changelogs.ts:235-238 | a family of categories for which it is not: the separator the first pass adds, the second removes |
| ChangelogMerge.TitleIndexIs | scripts/fix-changelogs.ts:361-364 | the order of a title is its place in the list of known titles, one past the last for any other |
| ChangelogMerge.SortingOrders | scripts/fix-changelogs.ts:419-421 | the categories of Unreleased end up in the known order |
| ChangelogPromotion.KeyIsText | scripts/fix-changelogs.ts:283-285 | items have the same key if and only if their trimmed lines are the same |
| ChangelogPromotion.CollectReleasedItemKeys | scripts/fix-changelogs.ts:296-308 | the set holds exactly the keys of items in releases |
| ChangelogPromotion.AddItems | scripts/fix-changelogs.ts:638-645 | looking the category up once for a batch is adding the items one by one |
| ChangelogPromotion.PromoteSection | scripts/fix-changelogs.ts:628-646 | a release keeps its other items and Unreleased gets the promoted ones in order |
| ChangelogFix.ChangelogFixer.DropUnreleasedDuplicates | scripts/fix-changelogs.ts:317-336 | the first Unreleased section loses exactly the items whose key a release or an earlier release has; by `KeyIsText` and `DroppedExactly`, those whose lines it has |
| ChangelogFix.ChangelogFixer.PromoteItems | scripts/fix-changelogs.ts:628-647 | the loop over the sections, in front of which Unreleased may be put while it runs, strips every release and adds its promoted items, in document order, once |
| ChangelogFix.FixChangelogContent | scripts/fix-changelogs.ts:617-666 | the whole fix is drop, promote, normalise, sort and render, in that order, with the keys of the releases and of earlier ones |
| ChangelogKept.MergeKeepsKeys | scripts/fix-changelogs.ts:386-426 | merging leaves each item under its title and brings in none |
| ChangelogKept.StrippedKeeps | scripts/fix-changelogs.ts:631-636 | taking items out leaves every other item |
| ChangelogKept.AddOneHas | scripts/fix-changelogs.ts:287-294 | after adding an item its category has it, and no category has lost one |
| ChangelogForm.NewUnreleasedIsFormed | scripts/fix-changelogs.ts:338-350 | the section made for promoted items reads back as Unreleased |
| ChangelogOutcome.FixedReadsBack | scripts/fix-changelogs.ts:617-666 | the fixed text parses back to the fixed sections |
| ChangelogOutcome.ReleasesGiveUp | scripts/fix-changelogs.ts:631-636 | after promotion a release has exactly its items that do not start on a promotable line |
| ChangelogEntries.DroppedExactly | scripts/fix-changelogs.ts:317-336 | each category of Unreleased keeps exactly, and in order, its entries whose lines no release has and no historical key spells |
| ChangelogEntries.DroppedKeeps | scripts/fix-changelogs.ts:317-336 | what Unreleased drops, a release has, line for line |
| ChangelogEntries.PromotedKeeps | scripts/fix-changelogs.ts:628-647 | promotion loses no entry of the document |
| ChangelogEntries.NoEntryIsLost | scripts/fix-changelogs.ts:617-666 | without historical keys, and with repeated categories beginning with an item, every entry of the input text is, with the same lines, an entry of the output text |
| ChangelogEntries.PromotedItemsArrive | scripts/fix-changelogs.ts:628-647 | every entry of a release that starts on a promotable line is, with the same lines, under the same category in Unreleased of the output text |
| ChangelogVersions.NumberReadsBack | scripts/fix-changelogs.ts:446-447 | the decimal digits of a number, after white space and a sign and before anything that is no digit, are read as the number |
| ChangelogVersions.VersionReadsBack | scripts/fix-changelogs.ts:446-447 | numbers with dots between them are read as those numbers |
| ChangelogVersions.NewerTitleIsFirst | scripts/fix-changelogs.ts:445-454 | of two releases with as many numbers in their titles the one whose first different number is larger comes first, so 1.10.0 before 1.9.0; they compare equal only if they are |
| ChangelogTwice.SortedTwice | scripts/fix-changelogs.ts:445-462 | sorting releases with version numbers is idempotent: the comparison is a total preorder on them |
| ChangelogRepeats.NormalTwice | scripts/fix-changelogs.ts:386-426 | a second pass leaves a section alone if and only if its categories join cleanly |
| ChangelogRepeats.NormalizedTwice | scripts/fix-changelogs.ts:386-426 | so a section without repeated titles is normal after one pass, its order included |
| ChangelogRepeats.NormalizedHasKey | scripts/fix-changelogs.ts:386-426 | the items of a merged section are those of the joined bodies of the section as it was |
| ChangelogRepeats.FixTwiceExactly | scripts/fix-changelogs.ts:617-666 | without promotable lines and historical keys, and with numeric release titles, fixing the fixed text changes nothing if and only if, duplicates dropped, all categories join cleanly and joining makes no item of Unreleased one that a release has |
| ChangelogRepeats.FixTwiceWithItems | scripts/fix-changelogs.ts:617-666 | if repeated categories begin with an item, the first half of that condition is all of it |
| ChangelogRepeats.FixTwice | scripts/fix-changelogs.ts:617-666 | if no section repeats a category, it always holds |
| ChangelogTwoPasses.SecondFixClosesGap | scripts/fix-changelogs.ts:235-238 | a changelog whose second fix differs: the separator put in by the first is taken out again |
| ChangelogTwoPasses.LateContent | scripts/fix-changelogs.ts:509-536 | that changelog, character by character |
| ChangelogTwoPasses.SecondFixDropsItem | scripts/fix-changelogs.ts:317-336 | another one: joining makes an item that a release has, and the second fix drops it |
| ChangelogAbsorbed.Absorbing | scripts/fix-changelogs.ts:225-239 | text put after items becomes part of the last one, with an empty line between, and all other items stay |
| ChangelogAbsorbed.JoinedItemTexts | scripts/fix-changelogs.ts:396-417 | the items of a merged category, exactly: those of its bodies in order, each plain beginning taken in by the item before it |
| ChangelogAbsorbed.JoinLengthens | scripts/fix-changelogs.ts:396-417 | there are as many as the bodies have, none is shorter in all, and they are the same if and only if no body after an item begins with plain text |
| ChangelogAbsorbed.MergeKeepsItemsIff | scripts/fix-changelogs.ts:386-426 | merging keeps the exact sequence of items of every title if and only if no repeated category brings plain text after an item |
| ChangelogEntries.FixedItems | scripts/fix-changelogs.ts:617-666 | the entries of the fixed text by their lines, for any changelog, promotable lines and keys: exactly those of the joined categories |
| ChangelogEntries.NothingAbsorbed | scripts/fix-changelogs.ts:617-666 | if no title absorbs, the fixed text has every entry of the input, line for line, and none that was not there before merging |
| Utf8Encoding.BytesAreEncoded | scripts/fix-changelogs.ts:576 | the byte length a budget counts is that of an encoding whose outputs are exactly the valid UTF-8 |
| ChangelogTail.PrefixSums | scripts/fix-changelogs.ts:587-593 | the array holds the byte length of every prefix of the lines |
| ChangelogTail.CollapseChangelogTail | scripts/fix-changelogs.ts:570-615 | of the cuts before the third and later headings the longest that fits is taken, or else the shortest; content that fits, or has two sections, stays |
| ChangelogTail.CollapseKeepsFirstSections | scripts/fix-changelogs.ts:601-614 | what stays are the first sections, two at least |
| ChangelogTail.CollapseIsTight | scripts/fix-changelogs.ts:601-610 | with more than two sections kept, body and footer are within the budget, and one more section would not have been |
| ChangelogTail.CollapseIsPrefix | scripts/fix-changelogs.ts:611-614 | on content in rendered form the result is a prefix of it |
| ChangelogTail.CollapseTwice | scripts/fix-changelogs.ts:570-615 | collapsing again changes nothing |
| ArchiveFooter.ArchiveLinkIs | scripts/fix-changelogs.ts:13 | a line is recognised as a footer exactly if it has a path, seven to forty hexadecimal digits and an address between the fixed parts |
| ArchiveFooter.LinkLineIsLink | scripts/fix-changelogs.ts:538-540 | the footer line the fixer writes is one the fixer recognises |
| ArchiveFooter.SplitArchiveFooter | scripts/fix-changelogs.ts:548-557 | the backward loops find the last line that is not blank and the end of the body before it |
| ArchiveFooter.FooterRoundTrip | scripts/fix-changelogs.ts:548-561 | splitting an appended footer returns body and link exactly |
| ArchiveFooter.WrittenFooterRoundTrip | scripts/fix-changelogs.ts:538-561 | splitting takes off exactly the footer line that the fixer itself writes |
| ArchiveFooter.FooterIsAtTheEnd | scripts/fix-changelogs.ts:548-557 | only blank lines are lost besides the footer, and only a recognised link is taken off |
| ArchiveFooter.ArchivedChangelogIsStable | scripts/fix-changelogs.ts:548-615 | a collapsed changelog with its footer splits into the same body and link, has nothing more to collapse, and is within the budget if more than two sections stay |
| EditApplication.Dedup | crates/pi-ast/src/ops.rs:301-315 | of the sorted edits the distinct ones remain, strictly sorted |
| EditApplication.FindOverlap | crates/pi-ast/src/ops.rs:316-326 | comparing neighbours reports an overlap exactly if any two distinct edits overlap |
| EditApplication.CopyForward | crates/pi-ast/src/ops.rs:328-345 | one forward pass equals splicing the edits one at a time from the last to the first, or the error of the first inapplicable edit |
| EditApplication.ApplyEdits | crates/pi-ast/src/ops.rs:297-346 | the whole operation computes that outcome for any edits in any order |
| EditApplication.OutcomeDependsOnSet | crates/pi-ast/src/ops.rs:301-315 | two edit lists with the same elements have the same outcome |
| EditApplication.AppliesIff | crates/pi-ast/src/ops.rs:316-339 | edits apply exactly if none overlap and each is applicable; the overlap error occurs exactly if two distinct ones overlap |
| EditApplication.SpliceLength | crates/pi-ast/src/ops.rs:330-345 | the output is as long as the input plus what is inserted minus what is deleted |
| EditApplication.SpliceKeepsUtf8 | crates/pi-ast/src/ops.rs:335-345 | applicable edits take valid UTF-8 to valid UTF-8 |
| Utf8Encoding.ValidIffEncoded | crates/pi-ast/src/ops.rs:335-340 | bytes are valid UTF-8 if and only if they are the encoding of a text of scalar values |
| Utf8Encoding.TextReadsBack | crates/pi-ast/src/ops.rs:335-340 | and that text is the only one |
| Utf8Encoding.CharIsEncoded | crates/pi-ast/src/ops.rs:335-340 | a valid character is the encoding of the number its bytes hold |
| EditApplication.SuccessfulOutcome | crates/pi-ast/src/ops.rs:297-346 | both facts for every successful call |
| CloneClusters.UnionFind.Find | scripts/cleanup-scan.ts:178-185 | with path compression, the representative is returned, unchanged for every element, and the recursion terminates |
| CloneClusters.UnionFind.Union | scripts/cleanup-scan.ts:186-190 | the classes become those of the links made so far and the new one |
| CloneClusters.BuildIndex | scripts/cleanup-scan.ts:195-214 | each hash has the positions of its windows, each once, in order |
| CloneClusters.ClosuresAgree | scripts/cleanup-scan.ts:217-224 | the links the scan makes generate exactly the closure of same hash and adjacent |
| CloneClusters.BuildClasses | scripts/cleanup-scan.ts:215-224 | two matched windows have one root exactly if that closure connects them |
| CloneClusters.Clusters | scripts/cleanup-scan.ts:226-235 | the map groups exactly the matched windows, by class |
| CloneRegions.MergeWindows | scripts/cleanup-scan.ts:252-269 | the scan cuts the sorted indices into regions, and counts as many lines as the windows cover together |
| CloneRegions.EachIndexOnce | scripts/cleanup-scan.ts:252-269 | every index lies in exactly one region |
| CloneRegions.SameLines | scripts/cleanup-scan.ts:256-260 | the lines of the regions are the lines of the windows |
| CloneRegions.CutCountsLines | scripts/cleanup-scan.ts:256-260 | the sum of the region sizes is the number of distinct lines covered |
| CloneDetection.SplitByFile | scripts/cleanup-scan.ts:238-249 | each file gets the window indices of the class there, in order of the positions |
| CloneDetection.SortIncreasing | scripts/cleanup-scan.ts:253 | sorted indices of different windows increase strictly |
| CloneDetection.ClusterReport | scripts/cleanup-scan.ts:238-271 | in each file the regions are the cut of the class there, and the count is that of the distinct lines of files it covers |
| CloneDetection.DetectClones | scripts/cleanup-scan.ts:193-274 | the reports are those of the classes of same hash and adjacency with two regions or more, each once |
| CloneDetection.ClassIsReported | scripts/cleanup-scan.ts:237-274 | every matched window is in the report of exactly the windows akin to it, if they make two regions; otherwise there is none |
| CloneDetection.WindowInReport | scripts/cleanup-scan.ts:252-269 | every window of a reported class lies in a region of its file |
| CloneDetection.NeighboursInOneRegion | scripts/cleanup-scan.ts:224 | matched windows next to each other lie in one region of one file |
| ReservoirSampling.Uniform | scripts/tool_io.py:125-134 | of all draw sequences for a stream of n items exactly k out of n leave any given item in the sample |
| ReservoirSampling.Survives | scripts/tool_io.py:131-134 | a kept item survives a draw exactly if the draw misses its slot |
| ReservoirSampling.Enters | scripts/tool_io.py:131-134 | the new item enters exactly if its draw hits a slot |
| ReservoirSampling.ReservoirSample.Add | scripts/tool_io.py:125-134 | adding an item keeps the sample in line with the stream and the draws made; a size below one samples nothing |
| ReservoirSampling.ReservoirSample.Positions | scripts/tool_io.py:118-134 | the sample is min(size, seen) items from distinct positions of the stream |
| LineIntervals.Merge | scripts/session-stats/optimize_read_config.py:157-168 | the result is sorted, no two ranges touch, and it has the lines of the input |
| LineIntervals.NormalIsUnique | scripts/session-stats/optimize_read_config.py:157-168 | a set of lines has only one such list, so merging is canonical |
| LineIntervals.Contained | scripts/session-stats/optimize_read_config.py:171-175 | true exactly if one range holds both ends |
| LineIntervals.ContainedMeansCovered | scripts/session-stats/optimize_read_config.py:171-175 | on a merged list that is the same as every line being covered |
| LineIntervals.Subtract | scripts/session-stats/optimize_read_config.py:178-194 | what is left are exactly the lines of the range outside all others, as such a list |
| LineIntervals.ChunkRange | scripts/session-stats/optimize_read_config.py:401-404 | the loop makes full chunks and what is left over |
| LineIntervals.ChunksPartition | scripts/session-stats/optimize_read_config.py:394-405 | chunks are never empty, never above the cap, and hold each line of the range once, in order |
| LineIntervals.ChunkNumber | scripts/session-stats/optimize_read_config.py:394-405 | no smaller number of chunks could hold the range |
| LineIntervals.LineSet | scripts/session-stats/optimize_read_config.py:157-168 | the ranges of a merged list are together as long as the set of its lines |
| ReadReplay.EffectiveReturned | scripts/session-stats/optimize_read_config.py:342-374 | exactly the lines returned, for each kind: always the first (one, or the line asked for), and after it those asked for (a page of a bare read, up to the end or a page of a ranged one, all of a raw one) within the file, the line cap and the byte cap; none for other kinds |
| ReadReplay.CallCostIs | scripts/session-stats/optimize_read_config.py:377-392 | a call is charged for the number of lines it returns, at 0.35 of the rate exactly if it is a bare read of a file long enough for a summary, and for the round trip |
| ReadReplay.RoomForLines | scripts/session-stats/optimize_read_config.py:371-372 | the byte cap as lines: the largest number of lines whose bytes fit, one at least |
| ReadReplay.ChunkCapIs | scripts/session-stats/optimize_read_config.py:395-399 | the largest chunk is within the line cap and, in bytes, within the byte cap |
| ReadReplay.DroppedBringsNothing | scripts/session-stats/optimize_read_config.py:437-438 | the containment test drops exactly the calls that bring no new line |
| ReadReplay.ReplayObserved | scripts/session-stats/optimize_read_config.py:426-443 | phase one charges exactly the calls that bring a line no earlier call brought, and covers what the calls return |
| ReadReplay.Gaps | scripts/session-stats/optimize_read_config.py:445-448 | the gaps are exactly the observed lines that phase one missed, as a merged list |
| ReadReplay.FillGap | scripts/session-stats/optimize_read_config.py:449-455 | filling a gap charges each of its lines once and covers it |
| ReadReplay.ReplayPair | scripts/session-stats/optimize_read_config.py:408-456 | the totals are the charges of both phases, and the final coverage is exactly the lines the calls return and those observed |
| ReadReplay.PaysForMissedLines | scripts/session-stats/optimize_read_config.py:445-455 | phase two pays for as many lines as the set of missed lines has |
| ReadReplay.FillCallsBound | scripts/session-stats/optimize_read_config.py:449-454 | phase two makes enough calls for them, and at most one a gap is not full |
| VersionStamp.StampNativeBytes | scripts/stamp-native-version.ts:138-166 | in place: an error leaves the bytes alone, otherwise they are the stamped ones, and the result says whether they changed |
| VersionStamp.StampKeepsTheRest | scripts/stamp-native-version.ts:158-165 | only the payload after the magic may differ |
| VersionStamp.StampReadsBack | scripts/stamp-native-version.ts:161-165 | reading the payload up to its first zero gives the version |
| VersionStamp.OccurrencesAfter | scripts/stamp-native-version.ts:147-157 | after stamping the magic occurs at the slot and wherever the version holds it, nowhere else |
| VersionStamp.RestampIsStamp | scripts/stamp-native-version.ts:138-166 | stamping over a stamp is stamping the original, exactly if the first version does not hold the magic; otherwise the second stamp fails |
| VersionStamp.SameVersionAgain | scripts/stamp-native-version.ts:163 | stamping the same version again changes nothing |
| CodeSignature.FindSignatureCommand | scripts/stamp-native-version.ts:77-90 | the loop over the load commands finds the last signature command, or runs out of range |
| CodeSignature.RefreshDirectory | scripts/stamp-native-version.ts:112-123 | the page loop, writing in place while it hashes, is the fold over the pages, whose bytes `SignedImage.RefreshedImage` gives |
| CodeSignature.RefreshAdhocSignature | scripts/stamp-native-version.ts:75-126 | the whole refresh in place, with every error the bytes can cause |
| CodeSignature.ListSettles | scripts/stamp-native-version.ts:112-123 | slots kept apart all end up right, nothing else changes, and a change is reported exactly if there is one |
| CodeSignature.BlobsAreList | scripts/stamp-native-version.ts:96-124 | reading each directory after the changes before it is reading all of them first |
| CodeSignature.RefreshSettles | scripts/stamp-native-version.ts:75-126 | on a laid-out signature every slot ends up holding the hash of its page, only slots change, and a second refresh does nothing |
| SignatureLayout.DirectoryReadsBack | scripts/stamp-native-version.ts:98-111 | a code directory written field by field is read as what was written, or refused because it is not ad hoc or its hash kind is unknown |
| SignatureLayout.IndexReadsBack | scripts/stamp-native-version.ts:92-98 | the number of blobs and the place of each are read back from a written index |
| SignatureLayout.CommandsReadBack | scripts/stamp-native-version.ts:81-90 | over written load commands the walk finds the last signature command |
| SignedImage.WrittenImage | scripts/stamp-native-version.ts:75-126 | header, commands, code, index, code directory and hashes, written one after the other, are an image as a linker lays it out |
| SignedImage.PagesPartition | scripts/stamp-native-version.ts:112-119 | with as many slots as the code has pages, every byte of the code is in exactly one page with a slot |
| SignedImage.RefreshedImage | scripts/stamp-native-version.ts:75-126 | after the refresh of such an image, with any number of code directories, the bytes where the hash of a page belongs are the hash, cut to size, of the bytes of that page; no other byte has changed |
| NativeStamp.StampNativeVersion | scripts/stamp-native-version.ts:175-182 | in place: stamp, and over the stamped bytes the refresh of the signature, if the stamp changed anything |
| NativeStamp.SignedStamp | scripts/stamp-native-version.ts:168-182 | after both the version reads back, every slot holds the hash of its page as stamped, and only the payload and the slots changed |
| StampedImage.StampedImageIsSigned | scripts/stamp-native-version.ts:168-182 | a signed image as a linker lays it out, stamped anew: the version reads back, the hash of every page is that of its stamped bytes, and nothing but payload and hashes has changed |
| StampedImage.StampedPlainFile | scripts/stamp-native-version.ts:175-182 | by its first bytes: a file that is no Mach-O, or an unsigned image, is written as stamped; fat, 32-bit and big-endian images are an error; without signing all are written as stamped |
| NativeStamp.SameRefresh | scripts/stamp-native-version.ts:112-123 | images that differ in slots only are refreshed to the same bytes |
| NativeStamp.RefreshedIsFilled | scripts/stamp-native-version.ts:112-123 | the refresh, page by page in place, comes to filling in the digests of all pages at once |
| NativeStamp.OnlyStampHasMagic | scripts/stamp-native-version.ts:147-157 | after stamp and refresh the magic stands at the stamp alone, unless the version or a digest brings it in, and then a stamp fails |
| NativeStamp.RestampSigned | scripts/stamp-native-version.ts:168-182 | stamping and signing a signed image again leaves, byte for byte, the original stamped with the second version and refreshed, if and only if the first version does not hold the magic and no digest spells it; otherwise the second run fails |
| ByteStream.Stream.Read | bazel/toolchains/darwin/extract_pkg.py:74-82 | the next n bytes of the concatenated chunks, or an error if there are fewer |
| ByteStream.Stream.Copy | bazel/toolchains/darwin/extract_pkg.py:84-95 | exactly the next n bytes reach the file, piece by piece; on a short stream all there are, and an error |
| CpioExtract.NextHead | bazel/toolchains/darwin/extract_pkg.py:98-110 | one header and name, or the error the bytes call for |
| CpioExtract.VisitEntry | bazel/toolchains/darwin/extract_pkg.py:138-160 | whatever its kind, an accepted entry consumes exactly the bytes of its data |
| CpioExtract.EntryAsksFor | bazel/toolchains/darwin/extract_pkg.py:138-160 | with a mode put together from its parts: a directory is made, a file is written and given its mode, a link is made unless it leads to a directory it lies in, anything else is refused, and what is not wanted is passed over |
| CpioExtract.WantedIs | bazel/toolchains/darwin/extract_pkg.py:138 | wanted is what has a place in the member and is no excluded directory nor under one |
| CpioExtract.ToAncestorIs | bazel/toolchains/darwin/extract_pkg.py:149-150 | left out are the relative links that lead to the top, to themselves or to a directory they lie in |
| CpioExtract.RightsGiven | bazel/toolchains/darwin/extract_pkg.py:158 | a file gets exactly the rights of its entry and those of 0644 |
| CpioExtract.RelativeIs | bazel/toolchains/darwin/extract_pkg.py:131-137 | wanted are the member itself and what lies under it, at its place there, with or without a leading ./ |
| CpioExtract.Extract | bazel/toolchains/darwin/extract_pkg.py:131-163 | actions and outcome depend on the bytes alone, whatever chunks they come in, on malformed streams too |
| CpioExtract.OctalRoundTrip | bazel/toolchains/darwin/extract_pkg.py:104-106 | octal digits of a number read back as the number |
| CpioExtract.HeadReadsBack | bazel/toolchains/darwin/extract_pkg.py:101-107 | the head of a written entry is read back, whatever follows |
| CpioExtract.VisitsTheEntries | bazel/toolchains/darwin/extract_pkg.py:98-160 | for any archive the loop visits exactly its entries, in order, each with its own data, up to the first unsupported one, and nothing after the trailer |
| RewritePlan.Peel | scripts/rewrite-system-prompt.ts:102-124 | prefix, core and suffix put together are the line |
| RewritePlan.CountIsLargest | scripts/rewrite-system-prompt.ts:162 | counting from the left finds the largest number of occurrences that do not overlap |
| RewritePlan.PreservesTokens | scripts/rewrite-system-prompt.ts:158-165 | true exactly if every token stands in the text, at places that do not overlap, as often as it is listed |
| RewritePlan.BlockSkipMask | scripts/rewrite-system-prompt.ts:175-208 | the mask is true exactly for the block at the top and for fenced blocks with their fences |
| RewritePlan.FencedLinesAreSkipped | scripts/rewrite-system-prompt.ts:194-206 | from an opening fence on every line is skipped up to the line that closes it |
| RewritePlan.PlanRewrite | scripts/rewrite-system-prompt.ts:211-225 | the loop computes the plan |
| RewritePlan.PlanIsPlan | scripts/rewrite-system-prompt.ts:211-225 | the plan has one entry for each rewritable line, in line order, each putting its line together |
| RewritePlan.Chunk | scripts/rewrite-system-prompt.ts:228-233 | groups of the size, only the last one shorter, that put together are the items |
| WorkerPool.RunsStayConsistent | scripts/rewrite-system-prompt.ts:236-254 | however the workers interleave, an item below the counter is with one worker or has its result, never both |
| WorkerPool.DeliveredOnce | scripts/rewrite-system-prompt.ts:245-250 | in every run an item is delivered once if its result is there, otherwise not at all |
| WorkerPool.LimitHolds | scripts/rewrite-system-prompt.ts:235-244 | in every run calls are under way for at most as many items as the limit says, one at least |
| WorkerPool.WidthIs | scripts/rewrite-system-prompt.ts:243-244 | there are as many workers as the limit and the items allow, one at least |
| WorkerPool.ResultsAreAllowed | scripts/rewrite-system-prompt.ts:249 | what holds of every single reply holds of every stored result |
| WorkerPool.RunsAreBounded | scripts/rewrite-system-prompt.ts:236-254 | a run takes at most two steps an item and one a worker |
| WorkerPool.StuckMeansDone | scripts/rewrite-system-prompt.ts:252-253 | a run that cannot go on has all workers finished and exactly one result for each item |
| RewriteRun.RewriteChunk | scripts/rewrite-system-prompt.ts:396-455 | each item ends with the first text any attempt offers that keeps its tokens, or with none, failed attempts and partial replies included |
| RewriteRun.AcceptedPreserves | scripts/rewrite-system-prompt.ts:437-442 | every accepted text holds each token at as many places that do not overlap as the line lists it |
| RewriteRun.EachLineOnce | scripts/rewrite-system-prompt.ts:312-319 | entries in line order write each line at most once and leave the others |
| RewriteFile.AnyRunResolves | scripts/rewrite-system-prompt.ts:236-254 | every finished run of the pool, in any interleaving and at any concurrency, holds the outcomes of each group, in order |
| RewriteFile.AnyRunSameFile | scripts/rewrite-system-prompt.ts:278-321 | so every such run puts the same file together |
| RewriteFile.MapPool | scripts/rewrite-system-prompt.ts:236-254 | the pool in place, an arbitrary worker moving next, comes to the same |
| RewriteFile.RewriteAll | scripts/rewrite-system-prompt.ts:278-331 | for an arbitrary rewriter, throwing requests included: content and counts are those of putting the outcomes back |
| RewriteFile.EachLine | scripts/rewrite-system-prompt.ts:296-319 | a line not attempted stays; any other is its own prefix and suffix around the text that came back, or around its core |
| RewriteFile.TokensKeptIff | scripts/rewrite-system-prompt.ts:271-277 | every line is unchanged or keeps its tokens if and only if every text that comes back for an attempted line keeps them or is the core |
| RewriteFile.TokenIsLost | scripts/rewrite-system-prompt.ts:300-304 | for patterns that read the line as the script does, a sentence around a code span is attempted, and a text without the span is written into the file |
| RewriteFile.SentenceSyntax | scripts/rewrite-system-prompt.ts:142-156 | such patterns exist, agreeing with the script on that line and on the empty one |
| RewriteFile.CheckedKeepsTokens | scripts/rewrite-system-prompt.ts:396-455 | with the requests of the script the promise holds, whatever the model replies |
| RewriteFile.AnyRunKeepsTokens | scripts/rewrite-system-prompt.ts:236-331 | and it holds of the file of every finished run of the pool |
| RewriteFile.RewriteChecked | scripts/rewrite-system-prompt.ts:278-455 | a file from content to content with checked requests: every line is unchanged or keeps its tokens |
| RewriteBreaks.PutBackBreaks | scripts/rewrite-system-prompt.ts:312-319 | putting texts back brings in exactly the line breaks they hold |
| RewriteBreaks.LinesKeepTheirPlaces | scripts/rewrite-system-prompt.ts:321-322 | the written file has its lines in their places if and only if no text that came back holds a line break; it is longer by as many lines as those texts have breaks |

## Left out

Publishing:
- Spawning, npm, git and file system calls: each phase of a job has a fixed outcome instead.
- The text a job logs, and when blocks of it are written; a `write` or `discard` that throws.
- Jobs that share a name: the maps at lines 534 and 563 are keyed by name, and the input is taken to have unique names.
- Steps within one microtask turn: the model lets any enabled job go next, which includes every order the event loop can produce.

Inlining:
- Which helpers qualify, `analyze` (lines 596-735): its conditions are the hypotheses on helpers and call sites.
- Syntax trees, positions, formatting, types, and the default (non-strict) mode.
- In the modelled language, no loops, closures or exceptions in bodies, no calls nested in arguments beyond recorded effects, and no declarations of one name in nested blocks; reads of bindings before their declaration.
- StrictInliningIsExact: asks that no flipped guard meets NaN, because the code is exact only then.

Changelogs:
- Collecting promotable lines from a diff, historical recovery from tags (the keys are a parameter), and the command line.
- Characters that are not Unicode scalar values, which JavaScript strings may hold.
- The counters of merged and dropped entries, except that promoted items are counted and every category is kept, merged or empty.
- NoEntryIsLost: asks that repeated categories begin with an item and that there are no historical keys; without them items are absorbed, as `FixedItems` says, or dropped on purpose.
- FixTwiceExactly: asks for numeric release titles, because comparing other titles is no order and the result of the sort is then up to the engine.
- Sorting by the engine: a stable insertion sort stands for it.
- The document is a value in one class that reassigns its sections; sharing of section and category objects is not modelled.
- IsArchiveLink: recognises the pattern at line 13; other regular expressions of the script are recognised as the few string facts they stand for.

Edits, clones, ranges, samples:
- Capacity hints and how the standard library sorts; a reference insertion sort stands for it.
- Hashing windows of lines (hashes are inputs), and the final order of results; fewer than 2^24 windows a file are taken for granted, as the encoding of positions needs it.
- How ranges are parsed from logs and how file statistics are aggregated; costs are real numbers, not floating point.
- LineIntervals.Merge: asks for ranges that are not empty, as every caller passes.
- ReplayPair: asks for a line cap of at least one; with a smaller one the chunk loop does not end.
- The generator behind `randrange`: a draw is any number in range, all equally likely.

Binaries:
- SHA digests: any function with digests of the right length.
- Files, temporary files and renaming; fat images beyond their rejection.
- RestampSigned: asks that the first stamp change something, since an image that already has the version is not signed at all.
- RefreshedImage: asks that hashes follow the fields of their directory, directories follow each other, and no page reaches into the signature.
- RefreshSettles: asks that slots be apart from each other, from what they hash and from all headers, as linkers lay them out; without that no order of writing settles.

Packages:
- The xar container, xz and pbzx framing: extraction starts from the chunks.
- File system calls are recorded as actions; creating parent directories is not. Resolving a link is a parameter.
- ParseOctal: accepts octal digits only, while Python also takes blanks, signs and underscores in a numeral.
- Names and links are bytes; invalid UTF-8 in them is not an error here.

Prompts:
- The regular expressions that recognise blocks, markers, tokens and verbatim lines are parameters, of which only their bounds matter.
- Parsing a reply as JSON: a reply is a list of fragments, or a failure.
- Progress reports, and pauses between attempts.
