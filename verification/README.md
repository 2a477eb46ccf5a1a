# Release tooling, verified

This project models the release, cache and governance tooling of the npcink cloud repository and
proves what it is for: when the deploy report's total can be trusted, what a cache hit delivers
after any interleaving and any crash, that a "passed" scan index means what it says, which globs
compile to their meaning, and what the repair, budget, purge, pruning, documentation and soak
scripts promise over every input, every pattern of failures and every interleaving.

`dafny verify dfyconfig.toml` checks everything.  Each script has a model file, and files with the
results about it:

| script | files |
|---|---|
| `scripts/report-release-timing.py` | `ReleaseTiming`, `TimingContext`, `TimedForest`, `TimingTotals`, `TimingCoverage`, `TimingUnfinished`, `DeployReport`, `TimingOverlap`, `TimingClock` |
| `scripts/m4-package-proxy.py` | `CacheStore`, `PackageCache`, `CacheRuns`, `CacheCrash` |
| `scripts/production-image-supply.py` | `KeyOrder`, `ScanModel`, `ScanFindings`, `ScanEvidence`, `ScanReceipt`, `ScanIndex` |
| `scripts/check-cloud-anti-drift.js` | `Glob`, `GlobProof`, `GlobTheorem` |
| `deploy/repair-post-commit-cleanup.py` | `RepairModel`, `RepairSweep`, `RepairAccount`, `Repair` |
| `scripts/provider_call_ledger.py` | `LedgerModel`, `LedgerAnswers`, `LedgerFile`, `LedgerRuns` |
| `scripts/production_wordpress_roundtrip_cleanup.py` and `app/domain/media_artifacts/lifecycle.py` | `PurgeModel`, `PurgeScript`, `PurgeRuns` |
| `deploy/prune-release-history.py` | `PruneModel`, `PrunePlan`, `Prune`, `PruneOrder`, `PruneRetry`, `PruneTags` |
| `scripts/check_doc_reachability.py` | `Documents` |
| `scripts/production_internal_validation_active_soak.py` | `Soak` |

Code that changes state is imperative here too: `PackageCache.PackageCache`, `LedgerFile.LedgerFile`,
`Repair.Host` and `PurgeScript.Artifact` are classes whose methods are proved against functions of the
old state, and the theorems over whole runs are about the same functions.  What those functions mean
is stated once more without them, in the methods' own postconditions or in lemmas that describe every
answer in terms of the input: by lists and positions, counts, and what was stored before.

## What is true, and what is not

* **Timing.**  From any log whatever the two parser structures agree; from the log of a forest of
  phases they recover the forest, and a truncated log its finished part.  Groups of overlapping plain
  phases, as the deploy script writes when it stops services, scan like the same phases in the order
  of their end lines, complete or cut off anywhere.  A plain phase that starts and never ends leaves
  the rest of the report as it is *iff* no later end line of its label lacks its own start line; an
  unfinished wrapper is distorting *iff* a phase with a start line follows.  The recorded total stays
  within the clock for all clock readings *iff* no counted phase encloses another, and the counted
  phases cover every leaf exactly once *iff* every leaf path has the shape `CoversOnce`; the deploy
  scripts' own discipline is sufficient.  Without it one plain phase inside another is counted twice
  (`NestedPlainPhasesDoubleCount`).  A group of overlapping phases keeps the total within the clock
  for all clock readings *iff* it is inside another wrapper than the sequence or no two of its phases
  that end are ever open together (`GroupWithinClock`, with the failing log `TwoTogetherCountTwice`);
  inside such wrappers, where the deploy script writes them, groups add nothing and the whole-log
  bounds hold with them (`GroupsWithinClock`, `GroupsCovered`).
* **Glob.**  A pattern compiles to its meaning *iff* it is `Clean`.  Avoiding `?` and the placeholder
  text is not enough: a pattern can spell the placeholder together with the colons of an inserted one,
  as `::double-star**` and `::double-star:**` do; `PlaceholderCollision` gives two different globs
  with the same expression.
* **Cache.**  A hit always delivers one complete body with its length, under the content type of the
  latest commit of its URL.  It is the latest commit *iff* no crash has put another body in place
  since.  That never shows as long as no stored entry fails to open (`HitsAreLatest`), because a
  lookup that misses has removed the metadata.  It does show after a failing open:
  `TornEntryServed` is a run in which the request that could not open its entry downloads another
  body of the same length and dies between the two replacements of its commit; the next hit serves
  that body, which was never committed, under the earlier type.
* **Repair.**  The script takes every failed inspection for an absent image as long as `docker info`
  works (fault `Missed`), so a run can complete and leave a rollback tag behind: `OverlookedTag` is
  one with a single such fault.  A tag stays *iff* every removal of it overlooks it, and a completed
  run has cleaned all tags *iff* none is overlooked (`NoneOverlooked`).  The evidence is restored
  after a failure unless a second fault occurs, or an error that the `except` clause does not name
  strikes one of the two checks between the removals; then nothing is restored.
* **Purge.**  The deletion of the bytes is not fenced (`StaleDeletion`); it is under the run's own
  claim exactly when no later run has claimed, and always within the lease.
* **Pruning.**  Releases without a time stamp are ordered by nanoseconds and so, when modified later
  than the second day of 1970, come before every stamped one: a stamped release is among the newest
  *iff* all unstamped ones and the stamped ones newer than it are fewer than the number to keep, and
  on the hosts of `LatestIsRemoved` the latest release is the one to go.  A run that fails part-way
  can be repeated and ends as planned *iff* no directory whose removal failed has lost its manifest
  or, by its new modification time, has come among the newest; in the runs of `TornRises` it has,
  and the next plan removes a release that the first one kept.  The rollback image of a kept release
  is removed *iff* the kept release's name extends a removed one's by a dash; on the host of
  `SomeHostExposed` it does, and between names that the deploy script generates it never does.

## Model

| member | source | states |
|---|---|---|
| ReleaseTiming.Classify | scripts/report-release-timing.py:167-216 | only the sequence label is a wrapper; every other label gets one of the summary's categories |
| ReleaseTiming.ClassifiedByFirst | scripts/report-release-timing.py:167-216 | a label has the category of the first rule, in order, one of whose markers it contains, whatever its case, or else `other` |
| ReleaseTiming.MentionsIff | scripts/report-release-timing.py:167-216 | containing a marker means that the text is something, the marker, and something |
| Basics.LowerIs | scripts/report-release-timing.py:168 | lower-casing identifies exactly the texts that differ in case only, and leaves no capital |
| ReleaseTiming.CollectDeployPhaseTimings | scripts/report-release-timing.py:219-268 | the loop over the two mutable structures computes the parser's state on every log; with TimingContext.ReportedAt this says what each report line holds |
| TimingContext.ReportedAt | scripts/report-release-timing.py:219-268 | in any log, nested or not, each end line is reported in its place with its own label, seconds, exit status, success iff that is 0, and category; with a start line of its label still open, at the number of wrappers open at the latest such line, under the one that started last, otherwise with neither; counted iff it is no wrapper and has no parent or the sequence as its parent |
| ReleaseTiming.TakeLatest | scripts/report-release-timing.py:239-245 | popping a start stack returns the latest context and removes an emptied entry |
| ReleaseTiming.RemoveLast | scripts/report-release-timing.py:246-250 | the backward search removes the last occurrence of a closed wrapper, and nothing else |
| TimedForest.ScanKeepsTidy | scripts/report-release-timing.py:219-268 | for every log, nested or not, the wrapper stack holds exactly the open wrappers label by label, and no label keeps an empty entry |
| TimedForest.ScanForest | scripts/report-release-timing.py:219-268 | from any tidy state, the log of a forest reports each ended phase, field by field, with its number of wrapper ancestors and its nearest one, and restores both structures |
| TimedForest.OpenClose | scripts/report-release-timing.py:225-250 | a start line and its end line undo each other on both structures |
| TimingTotals.ScanTruncated | scripts/report-release-timing.py:219-268 | a log cut off after any line reports exactly the phases that ended, field by field, with their context in the whole forest |
| TimingTotals.CountedSoFar | scripts/report-release-timing.py:253-255 | at any line the counted seconds are at most the clock's elapsed seconds times the deepest nest of counted phases |
| TimingCoverage.TotalWithinClock | scripts/report-release-timing.py:281-294 | the total stays within the clock for all consistent clock readings iff no counted phase encloses another |
| TimingCoverage.WorstReached | scripts/report-release-timing.py:253-255 | for every forest some clock readings reach the bound |
| TimingCoverage.MostCountedBounds | scripts/report-release-timing.py:253-255 | no leaf path carries more counted phases than the computed nesting |
| TimingCoverage.MostCountedReached | scripts/report-release-timing.py:253-255 | some leaf path carries that many |
| TimingCoverage.NoLeafLost | scripts/report-release-timing.py:253-255 | when every leaf is counted, the total is at least the seconds of the leaves |
| TimingCoverage.ExactCover | scripts/report-release-timing.py:253-255 | every leaf lies under exactly one counted phase iff no counted phase encloses another and every leaf is counted |
| TimingCoverage.CountedExactlyOnce | scripts/report-release-timing.py:253-255 | a leaf path has exactly one counted phase iff it has a shape that can be read off the labels |
| DeployReport.OtherLinesIgnored | scripts/report-release-timing.py:235-237 | lines that match no timing pattern change nothing |
| DeployReport.ConcurrentPhases | scripts/report-release-timing.py:219-268 | two adjacent events of plain phases that overlap can be swapped (the general result is TimingOverlap.OverlapsScanInOrder) |
| DeployReport.CompleteLog | scripts/report-release-timing.py:219-268 | a complete log gives the forest's report and leaves both structures empty |
| DeployReport.TruncatedLog | scripts/report-release-timing.py:219-268 | a truncated log gives the report so far |
| TimingOverlap.GroupScansInOrder | scripts/report-release-timing.py:219-268 | from any tidy state, any interleaving of plain phases with different labels scans like the same phases one after the other in the order of their end lines, and leaves both structures as they were |
| TimingOverlap.OverlapsScanInOrder | deploy/deploy-to-ssh-host.sh:1855-1865 | so does any log that contains such groups, inside wrappers or not |
| TimingOverlap.CompleteOverlappingLog | deploy/deploy-to-ssh-host.sh:1855-1865 | a complete log with groups gives the report of the forest in which they are ordered by their end lines |
| TimingOverlap.TruncatedOverlappingLog | deploy/deploy-to-ssh-host.sh:1855-1865 | cut off after any line, it gives that forest's report so far |
| TimingOverlap.OverlapCounted | scripts/report-release-timing.py:253-255 | overlapping phases are counted each for itself at top level or directly in the sequence, and not at all elsewhere |
| TimingOverlap.UnfinishedOverlappingLog | deploy/deploy-to-ssh-host.sh:1855-1865 | the same when some of the phases, in groups or not, start and never end: the finished ones give the ordered forest's report so far |
| TimingOverlap.GroupTotal | scripts/report-release-timing.py:253-255 | a group, or the first part of one, adds the seconds of its end lines, or nothing when it is inside another wrapper than the sequence |
| TimingClock.GroupWithinClock | scripts/report-release-timing.py:281-294 | the total stays within the time that passes at the lines of a group, or of the first part of one, for all clock readings iff it is inside another wrapper or no two of its phases that end are ever open together |
| TimingClock.GroupEnds | deploy/deploy-to-ssh-host.sh:1855-1865 | in a whole group every open phase ends, so this means that no two phases are open together |
| TimingClock.TwoTogetherCountTwice | scripts/report-release-timing.py:253-255 | a counterexample: two phases that overlap for one second at top level count two seconds |
| TimingClock.GroupsAddNothing | deploy/deploy-to-ssh-host.sh:1855-1865 | with groups inside other wrappers, the total at every line is that of the log without them |
| TimingClock.GroupsWithinClock | scripts/report-release-timing.py:281-294 | so at every cut of such a log the counted seconds stay within the elapsed clock, if no counted phase encloses another |
| TimingClock.GroupsCovered | scripts/report-release-timing.py:253-255 | and its total lies between leaf seconds and clock when the counted phases cover every leaf once |
| TimingUnfinished.StaleIff | scripts/report-release-timing.py:239-250 | with a start left behind at any depth of a label's stack, the rest of any log gives the same report iff no end line takes that start for its own |
| TimingUnfinished.UnfinishedPhase | deploy/deploy-to-ssh-host.sh:1858-1861 | a plain phase that never ends leaves the rest of the report unchanged iff no later end line of its label lacks its own start line |
| TimingUnfinished.Recovers | deploy/deploy-to-ssh-host.sh:1858-1861 | with any number of unfinished plain phases, after which every end line has its own start line, the finished ones are reported as if the others had never begun |
| TimingUnfinished.UnfinishedRecovered | scripts/report-release-timing.py:219-268 | so such a log of sequential phases, complete or cut off, gives the report so far of the forest of the finished phases (for groups see TimingOverlap.UnfinishedOverlappingLog) |
| TimingUnfinished.UnfinishedWrapper | scripts/report-release-timing.py:225-250 | after a wrapper that never ends everything is reported one level deeper, which changes the report iff a phase with a start line follows |
| DeployReport.TruncatedWithinClock | scripts/report-release-timing.py:281-294 | at every truncation the counted seconds stay within the elapsed clock |
| DeployReport.CoverageOfLog | scripts/report-release-timing.py:253-255 | the total covers every leaf exactly once iff all leaf paths have the covering shape, and then lies between leaf seconds and clock |
| DeployReport.DisciplinedCover | scripts/report-release-timing.py:169-170 | when only wrappers have children and the sequence is at top level only, every leaf is covered exactly once |
| DeployReport.NestedPlainPhasesDoubleCount | scripts/report-release-timing.py:253-255 | a counterexample: one plain phase inside another is counted twice |
| DeployReport.CategoriesPartition | scripts/report-release-timing.py:282-294 | the category totals together are the counted seconds |
| DeployReport.TallyCategories | scripts/report-release-timing.py:282-285 | the loop adds up every category's counted seconds |
| DeployReport.FindRemoteSequence | scripts/report-release-timing.py:286-293 | the backward search finds the seconds of the last sequence phase |
| DeployReport.RecordedTotal | scripts/report-release-timing.py:281-294 | the recorded total is the sum over the categories and over the counted phases |
| DeployReport.ScanRespectsCategories | scripts/report-release-timing.py:252-255 | a counted phase always has one of the summary's categories |
| CacheStore.PruneResult | scripts/m4-package-proxy.py:257-299 | after pruning bodies and metadata correspond one to one, the counter is the real total within the bound, and only unchanged live entries remain |
| CacheStore.Survives | scripts/m4-package-proxy.py:292-299 | an entry survives eviction iff it fits together with all entries behind it in age order: exactly the shortest oldest part goes |
| CacheStore.SurvivesPrune | scripts/m4-package-proxy.py:257-299 | an entry survives pruning iff it has metadata, is not too old, and fits together with all live entries that are no older, ties broken by size and path |
| CacheStore.ExcessLeast | scripts/m4-package-proxy.py:292-299 | taking fewer entries would not fit |
| CacheStore.OrderUnique | scripts/m4-package-proxy.py:293 | the eviction order is determined by the stored entries |
| CacheStore.PruneIdle | scripts/m4-package-proxy.py:257-299 | a store whose entries are complete, fresh and fit loses only its partial downloads |
| PackageCache.PackageCache.LockFor | scripts/m4-package-proxy.py:127-130 | one lock per key for ever, different keys never share one |
| PackageCache.PackageCache.LookUp | scripts/m4-package-proxy.py:143-181 | a hit iff readable metadata of this schema and key give the length of the stored body and the touch succeeds; a hit sets that body's time to now and changes nothing else; any other lookup removes this key's two files and the body's length from the counter; no other key is touched |
| PackageCache.PackageCache.CommitLocked | scripts/m4-package-proxy.py:199-247 | exactly when the commit succeeds, fails or finds the wrong length, what is stored, what the counter becomes and when it prunes; no failure touches a stored entry but the one that fails between the replacements, and that one only its body |
| PackageCache.PackageCache.StreamBinary | scripts/m4-package-proxy.py:468-563 | a whole download chunk by chunk: one of the wrong length leaves no trace in the cache, any other is exactly a commit of all its chunks |
| PackageCache.JoinedParts | scripts/m4-package-proxy.py:520-540 | the body is the chunks one after the other |
| PackageCache.PackageCache.PruneLocked | scripts/m4-package-proxy.py:257-299 | the sweeping, sorting and eviction loops compute the specified prune |
| PackageCache.PackageCache.SweepObjects | scripts/m4-package-proxy.py:264-287 | the first loop leaves exactly the live entries, in eviction order |
| PackageCache.PackageCache.RemoveOrphans | scripts/m4-package-proxy.py:289-290 | metadata without a body goes, nothing else |
| PackageCache.PackageCache.EvictFrom | scripts/m4-package-proxy.py:292-299 | the eviction loop removes exactly the least front of the order and returns the rest's total |
| CacheRuns.NeverClamped | scripts/m4-package-proxy.py:161-179 | the clamp at zero never takes effect |
| CacheRuns.StepKeeps | scripts/m4-package-proxy.py:143-299 | every critical section, every step outside them, and a crash anywhere, also inside the removals of a lookup or a prune or between the replacements of a commit, keeps the invariant |
| CacheRuns.RunKeeps | scripts/m4-package-proxy.py:94-299 | over every interleaving the counter equals the stored bytes and these stay within the bound |
| CacheRuns.StartsEmpty | scripts/m4-package-proxy.py:94-113 | an empty cache satisfies the invariant |
| CacheRuns.HitsAreFaithful | scripts/m4-package-proxy.py:424-563 | every hit delivers one complete body put in place for that URL, with its length, under the type of the latest commit; it is the latest commit iff no crash has put another body in place since |
| CacheRuns.PrunedPartialFails | scripts/m4-package-proxy.py:199-247 | when another URL's commit overfills the cache and prunes, a download waiting to commit loses its partial file: its commit fails and changes no file |
| CacheCrash.HitsAreLatest | scripts/m4-package-proxy.py:424-563 | over every run in which no stored entry fails to open, with any crashes, failures and prunes, every hit is the latest commit, body and type |
| CacheCrash.ServedAgain | scripts/m4-package-proxy.py:424-466 | in every reachable state the next undisturbed request for a stored entry is a hit with that body under the latest type iff the body has the length of the latest commit, so always unless a crash put another body in place |
| CacheCrash.TornEntryServed | scripts/m4-package-proxy.py:199-247 | a counterexample otherwise: a run whose last hit serves a body that was never committed under the type of the commit before |
| KeyOrder.KeysOrdered | scripts/production-image-supply.py:1330-1346 | the sort key of findings is a strict total order |
| KeyOrder.KeysTransitive | scripts/production-image-supply.py:1327 | and transitive |
| KeyOrder.TextBeforeIff | scripts/production-image-supply.py:1327 | a text is before another iff it is its beginning or has the smaller character at the first difference |
| KeyOrder.KeyBeforeIff | scripts/production-image-supply.py:1327 | findings are ordered by identifier, then package, then version |
| ScanModel.BlocksIff | scripts/production-image-supply.py:1312 | a match blocks iff its lower-cased severity is none of the names before the threshold in the list negligible, low, medium, high, critical |
| ScanFindings.BlockingFindings | scripts/production-image-supply.py:1288-1327 | refused iff a match lacks one of its texts; otherwise the list, in strict key order, holds for each key with a match that is none of the names below the threshold exactly the last such match, in every field, and nothing else |
| ScanFindings.InKeyOrder | scripts/production-image-supply.py:1327 | the values are listed in strict key order, each once |
| ScanFindings.SortSorts | scripts/production-image-supply.py:1339-1346 | re-sorting arranges the same findings in key order |
| ScanFindings.SortedOnce | scripts/production-image-supply.py:1339-1346 | a list with distinct keys has one sorted arrangement only |
| ScanFindings.ListedOnce | scripts/production-image-supply.py:1327 | a table has one sorted listing only |
| ScanEvidence.SplitThreeWays | scripts/production-image-supply.py:1509-1526 | allowed, unallowed and adjudicated findings partition the blockers |
| ScanEvidence.ProducerAccepted | scripts/production-image-supply.py:1481-1584 | the receipt a scan writes always passes the index's checks on the same files and policy |
| ScanEvidence.PassesIffExcused | scripts/production-image-supply.py:1481-1534 | a scan passes iff every match that is none of the names below the threshold is allowlisted or adjudicated for that image |
| ScanReceipt.EvaluateRefuses | scripts/production-image-supply.py:1481-1534 | a scan is refused iff a match lacks a text, a key is both allowlisted and adjudicated for the image, or an allowlist entry of the image has no match at or above the threshold |
| ScanReceipt.EvaluateSays | scripts/production-image-supply.py:1509-1584 | the receipt is about this image and these files, has each blocking finding under its heading, counts the headings, and passes iff the unallowed one is empty |
| ScanReceipt.SeveritiesCount | scripts/production-image-supply.py:1529-1532 | the severity table counts the matches of each lower-cased severity |
| ScanReceipt.AcceptsIff | scripts/production-image-supply.py:1866-2055 | an index accepts a receipt iff it fits the kept files, is not from the future, and lists exactly the blocking findings under the right headings with the right counts |
| ScanEvidence.AcceptedLists | scripts/production-image-supply.py:1866-2055 | an accepted receipt, whoever wrote it, lists every finding of the report exactly once, and as allowed exactly those on the allowlist |
| ScanEvidence.AcceptedPassIsReal | scripts/production-image-supply.py:1866-2055 | an accepted passing receipt implies that every blocking match of the kept report is excused |
| ScanEvidence.AcceptedPassAgrees | scripts/production-image-supply.py:1866-2055 | its lists hold the same findings as the scan's own |
| ScanIndex.Find | scripts/production-image-supply.py:2156-2163 | finds the representative's receipt, or there is none |
| ScanIndex.EvidenceHolds | scripts/production-image-supply.py:2087-2171 | the equivalence file is accepted iff it passed, is not from the future, covers exactly the declared pairs, and each record holds and is bound to its representative's receipt |
| ScanIndex.DatabasesAgree | scripts/production-image-supply.py:2173-2186 | comparing every database identity with the first decides whether all are the same |
| ScanIndex.WriteIndex | scripts/production-image-supply.py:2058-2195 | the index is written iff receipts, scope, equivalence file and database are admissible, and passes iff all receipts pass |
| ScanIndex.AdmissibleIff | scripts/production-image-supply.py:2058-2195 | admissible means: receipts, one for each image, from one database, each standing on its files; and for a release exactly the images to scan, and an equivalence file that proves exactly the declared pairs |
| ScanIndex.PassedCovers | scripts/production-image-supply.py:2087-2190 | behind a passing release index every scan target has its own scan, and every declared equivalent the scan of its representative under the same image ID, with every blocking match excused |
| ScanIndex.EveryImageVouched | scripts/production-image-supply.py:831-842 | when every output is scanned by default or has a representative, every image of the lock is vouched for |
| ScanIndex.MentionedIffDeclared | scripts/production-image-supply.py:831-842 | an admissible index speaks of exactly the scan targets and the declared equivalents; any other output escapes it |
| ScanIndex.ProducedIndexAdmissible | scripts/production-image-supply.py:2058-2190 | the scans' own receipts with matching equivalences are admissible, and all pass iff every report is excused |
| GlobTheorem.CleanCompiles | scripts/check-cloud-anti-drift.js:116-128 | for a clean pattern the four rewrites are one tokenising pass and the expression accepts exactly the glob's paths |
| GlobTheorem.UncleanMiscompiles | scripts/check-cloud-anti-drift.js:116-128 | for any other pattern some path is answered wrongly or the expression is invalid |
| GlobTheorem.CompilesToMeaning | scripts/check-cloud-anti-drift.js:116-128 | the compiler is right for all paths iff the pattern is clean |
| GlobTheorem.MatchIff | scripts/check-cloud-anti-drift.js:116-128 | a glob matches a path iff the path splits into pieces, one for each token: a character is itself, a star a run without a slash, a double star a run without a line break |
| GlobTheorem.WithoutLineBreaks | scripts/check-cloud-anti-drift.js:116-128 | on paths without line breaks this meaning is the textbook one |
| GlobTheorem.PlaceholderCollision | scripts/check-cloud-anti-drift.js:116-128 | two globs with different meanings and without the placeholder text compile to the same expression |
| GlobTheorem.ParseTokens | scripts/check-cloud-anti-drift.js:116-123 | the emitted text parses to the tokens' items |
| GlobTheorem.LastPassReads | scripts/check-cloud-anti-drift.js:121 | what the last replacement finds is a placeholder that was put in, unless the pattern spells one |
| Glob.SecondPass | scripts/check-cloud-anti-drift.js:118-119 | replacing in the escaped text is replacing in the pattern |
| Glob.ThirdPass | scripts/check-cloud-anti-drift.js:120 | the star replacement does not touch placeholders |
| RepairModel.PartwayCleansAlike | deploy/repair-post-commit-cleanup.py:464-486 | a clean run from any half-way state ends with the same tags as one from the start |
| RepairModel.CleanKeepsFrontend | deploy/repair-post-commit-cleanup.py:478-486 | a clean run keeps the preserved image under its release reference iff no rollback tag is that reference |
| RepairModel.CleanIs | deploy/repair-post-commit-cleanup.py:464-486 | after a clean run a tag is there iff it was or is the release reference, and no record names it for the rollback; only the release reference can name another image |
| RepairModel.BoundIff | deploy/repair-post-commit-cleanup.py:455-463 | a run starts iff all three files and the lock are there and the rollback map has exactly one record of the release reference, with a rollback tag that pins the preserved image |
| RepairModel.AimIs | deploy/repair-post-commit-cleanup.py:455-463 | the rollback tag of that record is the one the run uses |
| RepairSweep.SurvivesIff | deploy/repair-post-commit-cleanup.py:479-486 | a rollback tag is still there after the sweep iff it was there and every record that names it overlooked it |
| RepairSweep.SweptIff | deploy/repair-post-commit-cleanup.py:479-486 | all rollback tags are gone iff for each one that was there some record's removal did not overlook it |
| RepairSweep.SweepsClean | deploy/repair-post-commit-cleanup.py:479-486 | when no inspection misses, all rollback tags are gone and the reported number is how many went |
| RepairSweep.CleanIff | deploy/repair-post-commit-cleanup.py:464-486 | the tags are those of a clean run iff nothing was overlooked |
| Repair.Host.EnsureFrontend | deploy/repair-post-commit-cleanup.py:464-476 | on success the release reference names the preserved image and nothing else changed |
| Repair.Host.RemoveRollbackTags | deploy/repair-post-commit-cleanup.py:479-486 | the loop leaves exactly the tags, and counts exactly the removals, that the sweep over the faults prescribes; only rollback tags disappear |
| Repair.Host.LookTwice | deploy/repair-post-commit-cleanup.py:497-498 | the two checks between the removals, and exactly when an error there escapes the compensation |
| Repair.Host.UnlinkRecords | deploy/repair-post-commit-cleanup.py:495-496 | the failure marker goes first and the rollback map second, or a fault occurred |
| Repair.Host.UnlinkLock | deploy/repair-post-commit-cleanup.py:499-503 | the owner proof goes before the lock, which goes last, or a fault occurred |
| Repair.Host.RemoveRollbackTag | deploy/repair-post-commit-cleanup.py:479-486 | after one removal the tag is still there iff it was and the first inspection missed it, or the removal was ignored and the second inspection missed it; it is counted iff the first inspection found it |
| Repair.Host.Terminalize | deploy/repair-post-commit-cleanup.py:494-503 | on success evidence and lock are gone; otherwise what is left is unchanged and an absent lock means absent files; an error escapes iff it strikes one of the two checks |
| Repair.Host.Restore | deploy/repair-post-commit-cleanup.py:504-508 | restoring brings back the evidence exactly, or a further fault occurred |
| Repair.Host.Prepare | deploy/repair-post-commit-cleanup.py:464-488 | the tags part-way or, on success, exactly swept, before any evidence is touched |
| Repair.Host.Close | deploy/repair-post-commit-cleanup.py:488-508 | success, rollback, failed rollback or escape, with the evidence of each: nothing is restored iff an uncaught error strikes between the removals |
| Repair.Host.Proceed | deploy/repair-post-commit-cleanup.py:464-508 | all-or-nothing for the evidence, exactly swept or part-way for the tags, with every intermediate state safe |
| Repair.Host.Repair | deploy/repair-post-commit-cleanup.py:455-508 | for every pattern of faults: a completed run has cleaned the tags iff none was overlooked; a failure restores the evidence unless a second fault occurs or an error escapes, and exactly when one escapes is stated; only a fault prevents success; every state is safe |
| Repair.Host.RepairTwice | deploy/repair-post-commit-cleanup.py:455-508 | a failed run repeated without faults ends where one clean run ends, with the preserved image still named |
| Repair.OverlookedTag | deploy/repair-post-commit-cleanup.py:479-486 | a counterexample: a run with one missed inspection completes and leaves a rollback tag behind |
| LedgerFile.Validate | scripts/provider_call_ledger.py:142-215 | the checking loops accept exactly the valid ledgers |
| LedgerFile.ItemsAreValid | scripts/provider_call_ledger.py:151-176 | items are accepted iff each is well-formed and the budgets add up |
| LedgerFile.CountClaims | scripts/provider_call_ledger.py:177-198 | claims are accepted iff well-formed with distinct dispatches, and are counted per item |
| LedgerFile.NormalizeAll | scripts/provider_call_ledger.py:254-263 | the normalised budgets, or a refusal when two coincide |
| LedgerModel.NormalizeIs | scripts/provider_call_ledger.py:54-56 | the normal form is the text without the white space around it, in lower case |
| LedgerModel.IdentifierShape | scripts/provider_call_ledger.py:58-70 | identifiers have 3 to 64 small letters, digits and separators, and begin with a letter or digit; reason codes begin with a letter |
| LedgerAnswers.NormalBudgetsIff | scripts/provider_call_ledger.py:254-263 | the budgets are accepted iff each is a well-formed identifier with a positive number and no two coincide after normalisation, and then each identifier has its own number |
| LedgerAnswers.CountForIs | scripts/provider_call_ledger.py:177-198 | the count of an item's claims is the number of claims that name it |
| LedgerAnswers.ValidIff | scripts/provider_call_ledger.py:106-215 | a ledger is valid iff its totals are those of its claims and budgets, each item's counters are those of its own claims, claims are well-formed with distinct dispatches, and the closing fields agree with the status |
| LedgerFile.LedgerFile.Initialize | scripts/provider_call_ledger.py:245-296 | creates the ledger with exactly these budgets iff they are proper and add up and nothing fails, confirms an existing one iff it has the same budgets, and changes no existing one |
| LedgerFile.LedgerFile.ClaimDispatch | scripts/provider_call_ledger.py:299-339 | a grant leaves a ledger with exactly this claim more, or the same one for a recorded dispatch, and its receipt tells the ledger's own numbers; every refusal has its reason, and changes nothing unless the write failed after replacing |
| LedgerFile.LedgerFile.Close | scripts/provider_call_ledger.py:371-391 | marks an open ledger closed with this reason and time and changes nothing else; a closed one is confirmed under the same reason and refused under another |
| LedgerAnswers.ReceiptTells | scripts/provider_call_ledger.py:342-362 | a receipt gives the recorded claim; the experiment's used calls, the number of claims, and the rest of the total; and the item's used calls, the number of its own claims, and the rest of its budget |
| LedgerAnswers.InitializeSays | scripts/provider_call_ledger.py:245-296 | what every initialisation answers and leaves, in terms of the given budgets |
| LedgerAnswers.ClaimSays | scripts/provider_call_ledger.py:299-339 | what every claim answers and leaves, in terms of the claims already recorded |
| LedgerAnswers.CloseSays | scripts/provider_call_ledger.py:371-391 | what every closing answers and leaves |
| LedgerRuns.StepKeeps | scripts/provider_call_ledger.py:218-391 | every operation, whatever fails in it, keeps the ledger valid, takes nothing back, backs its receipt, and is never refused by validation |
| LedgerRuns.ExhaustedTogether | scripts/provider_call_ledger.py:322-325 | the experiment is exhausted iff every item is |
| LedgerRuns.GrantedIff | scripts/provider_call_ledger.py:299-339 | a new dispatch is granted iff the ledger is open and its item has calls left |
| LedgerRuns.Replay | scripts/provider_call_ledger.py:309-316 | repeating a claim returns its receipt, with the recorded time and the ledger's present counts, and consumes nothing, even after closing; under another item it is refused |
| LedgerRuns.RunKeeps | scripts/provider_call_ledger.py:106-391 | over every run the ledger stays valid and only grows |
| LedgerRuns.ReceiptsKept | scripts/provider_call_ledger.py:299-362 | no receipt of a run is ever lost |
| LedgerRuns.BudgetsHold | scripts/provider_call_ledger.py:106-339 | over every run the dispatches granted for an item stay within its budget, all together within the total, each bound to one item |
| PurgeScript.Artifact.Claim | scripts/production_wordpress_roundtrip_cleanup.py:152-226 | claims iff the identity matches, there are exactly the stated deliveries and all are acknowledged, both audit counts match, the row is available, unpurged and unclaimed, and the stored bytes are the requested ones; then the row is pending under this claim; otherwise it is unchanged |
| PurgeScript.Artifact.UpdateFinalized | scripts/production_wordpress_roundtrip_cleanup.py:254-280 | the conditional update changes the row iff it is still pending under this claim, and then marks it purged |
| PurgeScript.Artifact.UpdateReleased | scripts/production_wordpress_roundtrip_cleanup.py:230-252 | a failed deletion gives the claim back, to be retried at the given time, under the same condition |
| PurgeScript.Artifact.Cleanup | scripts/production_wordpress_roundtrip_cleanup.py:152-292 | undisturbed, the script succeeds iff it may claim, all deliveries being acknowledged, the deletion succeeds and the audit counts are the same afterwards; its other late checks never fail; what the row and the bytes are after each outcome |
| PurgeModel.RetryDelay | app/domain/media_artifacts/lifecycle.py:301-308 | the retry delay lies between half a minute and an hour |
| PurgeModel.RetryDoubles | app/domain/media_artifacts/lifecycle.py:301-308 | it begins at half a minute and doubles with each attempt, up to an hour |
| PurgeRuns.StepKeeps | scripts/production_wordpress_roundtrip_cleanup.py:152-292 | every step of script and service, crash and passage of time keeps the invariant |
| PurgeRuns.RunKeeps | scripts/production_wordpress_roundtrip_cleanup.py:152-292 | every reachable state satisfies it |
| PurgeRuns.DeletionNeedsClaim | scripts/production_wordpress_roundtrip_cleanup.py:215-229 | bytes go only after a committed claim, never from an available artifact; the deleter still holds its claim iff no later run has claimed |
| PurgeRuns.LeaseFences | scripts/production_wordpress_roundtrip_cleanup.py:219-229 | within its lease a run keeps its claim and its finalization succeeds |
| PurgeRuns.StaleDeletion | scripts/production_wordpress_roundtrip_cleanup.py:228-229 | a counterexample: for every artifact with one acknowledged delivery, the script claims it, its lease ends, the service claims it, and the script removes the bytes under the service's claim |
| PurgeRuns.OnlyHolderFinalizes | scripts/production_wordpress_roundtrip_cleanup.py:254-280 | only the claim holder that has deleted the bytes can finalize; it succeeds iff no later run has claimed, and a superseded one changes nothing |
| PurgeRuns.AtMostOneWinner | scripts/production_wordpress_roundtrip_cleanup.py:254-295 | at most one run finalizes, the row is purged iff one has, then the bytes are gone, and only that run reports |
| PurgeRuns.PurgedForEver | scripts/production_wordpress_roundtrip_cleanup.py:194-208 | a purged row never changes again |
| PurgeRuns.WinnerReports | scripts/production_wordpress_roundtrip_cleanup.py:281-292 | the winner's last checks fail only because of foreign accounting |
| PurgeRuns.OperatorClaimsFirst | scripts/production_wordpress_roundtrip_cleanup.py:207-210 | the script claims only an artifact nobody has claimed before |
| PurgeRuns.OperatorOnlyAcknowledged | scripts/production_wordpress_roundtrip_cleanup.py:179-186 | over every run, the script has claimed only if there are deliveries and all are acknowledged |
| PurgeRuns.SweeperStartsIff | app/domain/media_artifacts/lifecycle.py:113-170 | the service takes a row iff its time to live is over, it is not purged, no retry is waiting and no other claim's lease is running |
| PurgeRuns.FailedDeletionWaits | app/domain/media_artifacts/lifecycle.py:269-308 | after a failed deletion the claim is given back and the next attempt waits, half a minute after the script and the retry delay after the service |
| PurgeRuns.ScriptAlone | scripts/production_wordpress_roundtrip_cleanup.py:152-292 | among runs of the script alone at most one reaches the deletion |
| PurgeRuns.ScriptNeverSuperseded | scripts/production_wordpress_roundtrip_cleanup.py:279-280 | and none is superseded |
| PurgeRuns.NeverStuck | app/domain/media_artifacts/lifecycle.py:104-262 | whatever crashed or failed before, once the times have passed one undisturbed run of the service completes the purge |
| Prune.SortReleases | deploy/prune-release-history.py:48-55 | the releases in descending order, each once |
| Prune.FirstAreNewest | deploy/prune-release-history.py:52-56 | the first entries are exactly the releases with fewer than that many newer ones |
| PruneOrder.NewestCount | deploy/prune-release-history.py:52-56 | there are exactly as many newest releases as asked for, or all |
| PruneOrder.StampedNewestIff | deploy/prune-release-history.py:48-56 | a stamped release is among the newest iff all unstamped ones and the stamped ones newer than it are fewer than the number to keep |
| PruneOrder.StampedIsRemoved | deploy/prune-release-history.py:48-58 | with as many unstamped releases as are kept, the current and the installed one among them, the plan is accepted and a stamped release without other protection is the one to go, whatever its date |
| PruneOrder.LatestIsRemoved | deploy/prune-release-history.py:48-58 | a counterexample: for every generated name and every later modification time a host of which it is the latest release, and the one to go |
| PruneOrder.ShortNames | deploy/prune-release-history.py:49 | there are proper names without a time stamp to make that host, and the one of TornRises |
| Prune.Classify | deploy/prune-release-history.py:85-104 | the loop finds the protected and removable releases and the protected images, or an improper name or a mount in the way |
| Prune.CollectReferences | deploy/prune-release-history.py:105-120 | the loop over the images collects exactly the planned references |
| Prune.MakePlan | deploy/prune-release-history.py:40-130 | refused iff too few releases are kept, there is no current release, a release directory has an improper name, or a mount is in the way; otherwise it removes exactly the recognised releases that nothing protects and that at least as many come before as are kept, and the references of exactly the images that nothing kept uses and that carry only their rollback tags, or no tag and are theirs |
| PrunePlan.PlanSorts | deploy/prune-release-history.py:48-120 | what the plan lists, said release by release, image by image and reference by reference |
| PrunePlan.RemovableIff | deploy/prune-release-history.py:48-104 | a release goes iff it has a manifest, is neither current nor installed nor in use, and at least as many releases come before it as are kept |
| PrunePlan.ProperNameIff | deploy/prune-release-history.py:85-87 | the shape of a release's name |
| PrunePlan.RefusesIff | deploy/prune-release-history.py:40-103 | when a plan is refused, in terms of the host |
| PrunePlan.AppliedLeavesRest | deploy/prune-release-history.py:159-177 | after the plan, exactly the removed releases and the images without a reference left are gone |
| Prune.RemoveReferences | deploy/prune-release-history.py:163-170 | removing the references one by one, with one of the removals failing, leaves a state part-way through the plan with all directories, and after all of them exactly the planned images are gone |
| Prune.RemoveReleases | deploy/prune-release-history.py:171-174 | removing the directories one by one, with one of them failing or torn half-way, touches no other directory |
| Prune.Apply | deploy/prune-release-history.py:159-177 | removes exactly the planned images and directories, and leaves everything else as it was, iff the plan is still current and no step fails; a stale plan changes nothing, and a failing step leaves a state part-way through the plan |
| Prune.EveryStateIsSafe | deploy/prune-release-history.py:56-177 | in every state that a run can leave, also a failed one, the newest, pinned and unrecognised releases are untouched, and so is every image that a container, a backup or a kept release uses |
| PruneOrder.EnoughSurvive | deploy/prune-release-history.py:52-56 | in each of these states at least as many releases as asked for, or all, are there untouched |
| PruneOrder.AppliedIsBetween | deploy/prune-release-history.py:159-177 | the completely applied plan is one of these states |
| PruneRetry.RetryConverges | deploy/prune-release-history.py:40-177 | after a run that failed anywhere, planning and pruning again is accepted and ends with what the first plan wanted iff no torn release has lost its manifest or come among the newest by its new modification time |
| PruneRetry.NewestUnmoved | deploy/prune-release-history.py:48-56 | unless a torn release comes among the newest, these are the same after a failed run as before |
| PruneRetry.TornRises | deploy/prune-release-history.py:48-58 | a counterexample otherwise: a run with one torn directory, after which the next plan spares that release and removes one that the first plan kept |
| Prune.SecondPlanIsEmpty | deploy/prune-release-history.py:40-130 | after applying, the next plan is accepted and removes nothing |
| PruneTags.TagTakenIff | deploy/prune-release-history.py:111-114 | a numbered rollback tag of one release is taken for another's iff the first name extends the second by a dash |
| PruneTags.KeptRollbackListedIff | deploy/prune-release-history.py:111-117 | an unprotected rollback image of a kept release is removed iff its name extends a removed release's |
| PruneTags.ListedTagsAreRemoved | deploy/prune-release-history.py:111-117 | without such names only rollback tags of removed releases are removed |
| PruneTags.GeneratedNeverOvershadowed | deploy/deploy-to-ssh-host.sh:650-651 | a name the deploy script generates never extends another such name by a dash |
| PruneTags.ExposedImageLost | deploy/prune-release-history.py:111-117 | on an exposed host a rollback image goes although its release is the current one and stays |
| PruneTags.SomeHostExposed | deploy/prune-release-history.py:111-117 | such a host, whose plan is not refused |
| Documents.StripCodeFences | scripts/check_doc_reachability.py:61-74 | the toggling loop keeps exactly the lines that are no fence and have an even number of fences before them, in their order |
| Documents.UnfencedPicks | scripts/check_doc_reachability.py:61-74 | every line that is kept, in order, is one with an even number of fences before it, and every such line is kept |
| Documents.IsFenceIff | scripts/check_doc_reachability.py:66-68 | a fence is a line that begins, after white space, with three back quotes or three tildes |
| Documents.UnfencedAfter | scripts/check_doc_reachability.py:61-74 | closed blocks in front do not affect what is kept of the rest |
| Documents.Follow | scripts/check_doc_reachability.py:112-121 | one document's links add exactly its new tracked destinations |
| Documents.LinksIff | scripts/check_doc_reachability.py:112-121 | a document links to exactly the tracked documents, or README files of directories, to which a target leads from its directory or the root |
| Documents.ReachableDocuments | scripts/check_doc_reachability.py:95-123 | the walk terminates on every graph and finds exactly the tracked documents reachable from the entry page |
| Soak.CeilIsLeast | scripts/production_internal_validation_active_soak.py:179-186 | the rounded quotient is the least number of intervals that covers the window |
| Soak.MinimumIs | scripts/production_internal_validation_active_soak.py:179-186 | enough samples are at least two that cover the window when each takes an interval and its timeout |
| Soak.MaximumIs | scripts/production_internal_validation_active_soak.py:279-295 | at most one sample more is taken than intervals cover the window |
| Soak.PauseIs | scripts/production_internal_validation_active_soak.py:294-295 | a pause is an interval but never goes beyond the end of the window |
| Soak.CompareFingerprints | scripts/production_internal_validation_active_soak.py:125-142 | no blocker iff all fields are the same; a field is named iff it changed, appeared or disappeared |
| Soak.Sample | scripts/production_internal_validation_active_soak.py:279-295 | the loop terminates within the maximum number of samples; without a blocker the window is over and every sample equals the baseline; with at most one interval lost there are enough samples |
| Soak.RunSoak | scripts/production_internal_validation_active_soak.py:297-318 | a pass means permitted settings, equal samples over the whole window, at least two, and enough for intervals with timeouts to cover it; with at most one interval lost only an unready or changed sample prevents it |

## Left out

- ReleaseTiming.Classify: case folding is modelled over ASCII; the markers are ASCII.
- Timing lines start from parsed events; the two regular expressions and the JSON output are not modelled.
- Cache: files are maps from keys to contents with times; the status of an existing file can be read, removing a file fails only when it is absent, symbolic links, permissions and leftover temporary metadata files are not modelled, and a digest stands for its URL.  The new process prunes what a crash leaves before it serves.
- Cache: HTTP handling, streaming to the client, metrics and the rewriting of index pages, beyond when a download is received, committed or discarded.
- Scan evidence: recorded hashes stand for the files they name, so archive, SBOM and scanner identities, platforms and paths are not modelled; a database identity is one value; keys of the image lock are unique.
- Scan evidence: lower-casing and white space are modelled over ASCII.
- Glob: strings are sequences of characters; the expression parser covers what the compiler can emit, with the engine's one-line dot.
- Repair: other processes, a kill in the middle of the terminal steps, and the parsing of the evidence files; the checks before the first change are one step.
- Repair.Host.Unlink: a file system call reports truthfully and fails only with errors the compensation catches; only Docker commands and the removal of the lock directory may claim a success they had not.
- Ledger: JSON shape and types, Unicode white space and case, symbolic links and permissions; the lock makes an operation one step.
- Purge: the formats of identifiers, storage key and checksum, and the release and deployment locks that the script looks at first; no modelled step of script or service writes an audit count, other accounting may at any time.
- Purge: one artifact, clocks of all hosts agree, claim identifiers are never repeated; the row of the artifact exists; the service's batching and the revoking of deliveries are not modelled.
- Prune.MakePlan: the checks of the root and of the backup directory, and the refusals while records, receipts and manifests are read, come before and are not modelled.
- Prune.Apply: the checks before each removal that a reference or a directory is still the planned one are failures of that step; which of several removals come first is left open.
- Pruning: reading the receipts, mounts and containers is part of the given inventory; hashes of manifests and receipts, and a Docker image kept alive by derived images, are not modelled.
- Documents: links start from the extracted targets; the regular expressions and file system resolution are parameters.
- Soak: readings, their durations and the lost time are parameters; the fields of a fingerprint are texts.
- The repository's one-branch gates, configurations and wrappers would only add easy members.
