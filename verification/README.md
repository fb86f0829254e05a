# Verification of the oracle and benchmark tooling

This project models, in Dafny 4.11, the parts of hoonarqube that decide whether two analyses agree
and whether a benchmark run can be trusted, and proves what those parts promise. `dafny verify
dfyconfig.toml` checks all of it.

Code that computes values is modelled by functions. Code that works step by step is modelled by
methods with loops over arrays, sets and shared objects; each such method is proved equal to a
function, and the theorems are lemmas about that function. Calls to a server, a file system, a
scheduler or a sort key are parameters, so every theorem holds for all of their behaviours.

| module | file | subject |
|---|---|---|
| `Freezing`, `Evidence` | Freezing.dfy, Evidence.dfy | canonical forms of JSON evidence, findings, compatibility |
| `Matching`, `Searching`, `Assigning` | same names | maximum matching by augmenting paths under a work budget |
| `Counters`, `Uniform`, `Reconciling`, `Grouping` | same names | multiset fast path, bounded matcher of one group, what agreement means |
| `Verdict`, `Contents`, `Invariance` | same names | the verdict over all groups, what is reported with it, what it does not depend on |
| `Work`, `Budget` | same names | what searches, groups and comparisons cost exactly, and which sizes fit the budget |
| `Gate`, `Statuses` | same names | expectations, the failure count of a whole report, the status of every row |
| `Paging`, `Fetching`, `CountPaging` | same names | offset-based and count-based paginators, what a fetch brings |
| `Supervisor` | Supervisor.dfy | timeout watchdog, interrupts and reaping as an interleaved protocol |
| `Fingerprint`, `Framing` | same names | the walk over benchmark inputs and the byte streams fed to hashes |
| `Edits`, `EditOrder` | same names | projecting quick-fix edits, and when the order of their list matters |
| `Bench64` | Bench64.dfy | splitmix64 and FNV-1a |
| `Orders`, `Arithmetic` | same names | sorting, permutations, division |

The main results:

- The bounded matcher finds a maximum matching whenever its budget suffices. The verdict is exact:
  lists that can be paired one to one along compatible findings are never called a mismatch, even
  when the budget runs out, and within the budget all other lists are. A comparison runs out exactly
  when its groups cost more than 100,000 units, a search costing one unit for every row entry it looks
  at, and what it reports as missing and extra is known group by group.
- The report gate is exact: zero failures is equivalent to a statement about the complete reports
  and the fields of the entries that mentions no row and no status. Every status a row can have is
  characterized by the findings and the fields, too.
- A fetch succeeds exactly when the server's answers fit together and no key repeats, and then brings
  the items of these answers in order, each in its place. The two paginators, written in two
  languages around different counters, accept the same answers.
- In every interleaving of supervisor, watchdog, leader and interrupts, including interrupts that the
  cleanup does not catch, it is known exactly which runs signal after the reap and which leave the
  leader behind.
- Two benchmark runs have equal fingerprint streams exactly when they name the same arguments and what
  these lead to looks alike, entry by entry and byte by byte.

Four properties do not hold of all inputs. Each is proved to hold if and only if a condition does:

- No signal follows the reap in `_reap`: true of a run exactly when no interrupt that struck after
  `wait4` took effect, but before the `try` block ended, has been followed by three more steps of the
  main thread, the third of which signals a group whose leader is gone (`Supervisor.SafetyIsExact`;
  `Supervisor.UnsafeRun` is a run in which it happens).
- Whoever leaves `_reap` has reaped the leader exactly once and joined the watchdog: true of a run
  exactly when no interrupt struck before the reap outside the places that catch it, which are the
  `try` block and, in the cleanup, the sleep, the join and `wait4` (`Supervisor.ExitIsClean`;
  `Supervisor.UncleanRun` is a run in which one did).
- The order in which edits are listed does not matter: true whenever no two start at one place
  (`Edits.EditOrderIsIgnored`); for edits that lie apart but may start at one place, true exactly
  when every edit's text slides past the texts inserted at its start (`EditOrder.OrderMattersExactly`),
  which for insertions means that the texts commute (`EditOrder.InsertionOrderMattersExactly`).
- The bytes of a record in a manifest tell what kind of path it was written for: two paths of
  different kinds have the same bytes exactly when one is a link to something special and the other a
  link, with the same text and facts, to an empty directory that the walk enters
  (`Fingerprint.KindsAreTold`).

## Model

| member | source | states |
|---|---|---|
| Freezing.FreezeIsCanonical | tools/oracle/parity.py:1103-1111 | two JSON values are equal in Python's sense exactly when their frozen forms are identical, whatever the order of object keys at any depth |
| Freezing.FreezeGivesCanonical | tools/oracle/parity.py:1103-1111 | a frozen form has strictly sorted keys at every depth |
| Freezing.FreezeThaw | tools/oracle/parity.py:1103-1124 | freezing the thawed value of a canonical form gives the form back |
| Freezing.ThawFreeze | tools/oracle/parity.py:1103-1124 | thawing a frozen value gives a value equal to the original |
| Evidence.DetectorKeysAgree | tools/oracle/parity.py:1127-1144 | detector keys are equal exactly when identity, availability flags and all three facets agree |
| Evidence.KeysInFields | tools/oracle/parity.py:1127-1144 | detector keys and identities, field by field: all but the review state counts |
| Evidence.CompatibleIsProjectedEquality | tools/oracle/parity.py:1147-1194 | compatibility is equality of the keys projected to the facets both sides know |
| Evidence.CompatibleMeansOneTruth | tools/oracle/parity.py:1147-1170 | findings are compatible exactly when both can be what is left of one finding with every facet known |
| Evidence.CompatibleIsNotTransitive | tools/oracle/parity.py:1147-1170 | a finding with unknown facets is compatible with two findings that contradict each other, so greedy pairing is not enough |
| Evidence.FullProjection | tools/oracle/parity.py:1127-1194 | with all facets known the projected key is as fine as the detector key |
| Evidence.ForgettingKeepsCompatible | tools/oracle/parity.py:1147-1170 | marking facets unavailable never makes compatible findings incompatible |
| Matching.WeakDuality | tools/oracle/parity.py:1316-1344 | no matching of a bipartite graph is larger than a vertex cover |
| Matching.DeadRegionProvesMaximum | tools/oracle/parity.py:1316-1344 | when every row is matched or lies in a region closed under compatibility and matched into itself, no matching is larger |
| Searching.UnitsAreCounted | tools/oracle/parity.py:1255-1258 | asked for units one by one, a budget grants exactly as many as it holds and is never overdrawn |
| Work.ScanPays | tools/oracle/parity.py:1290-1312 | scanning a row costs one unit for every entry up to the first free position, visited ones included |
| Work.SearchPaysExactly | tools/oracle/parity.py:1279-1313 | a search is exhausted exactly when the entries of the rows it takes from the queue are more than its budget, and otherwise spends exactly that many units and does as it would without a budget |
| Work.AssignPaysExactly | tools/oracle/parity.py:1316-1344 | the assignment is exhausted exactly when all its searches together cost more than the budget, and otherwise spends exactly that and assigns as it would without one |
| Work.VariablePaysExactly | tools/oracle/parity.py:1255-1375 | a group costs its pairs and its searches, and is exhausted exactly when that is more than the budget |
| Work.GroupsPayExactly | tools/oracle/parity.py:1378-1419 | groups pay one after the other, all of them nothing but those with equally many rows and differing masks |
| Work.ExhaustedExactly | tools/oracle/parity.py:1173-1419 | a comparison runs out of budget exactly when its groups together cost more than 100,000 units |
| Searching.FindPath | tools/oracle/parity.py:1279-1313 | the queue-based search over the owner array computes the specified search, with its parents, free row, remaining work and exhaustion |
| Searching.SearchResult | tools/oracle/parity.py:1279-1313 | a search from a free row builds a tree of alternating paths, and one that fails within budget has found a closed region with no free row |
| Searching.RunWork | tools/oracle/parity.py:1279-1313 | a search spends at most one row's width per row it dequeues and exhausts only a smaller budget |
| Assigning.FlipStep | tools/oracle/parity.py:1337-1343 | each step of the flip finds its parent, keeps all pairs but the pending one consistent and moves strictly closer to the start, where it ends in a matching |
| Assigning.FlipAugments | tools/oracle/parity.py:1336-1343 | a flip ends in a matching that covers exactly one row more, the start, and touches no dead region |
| Assigning.FlipPath | tools/oracle/parity.py:1336-1343 | the in-place loop over both owner arrays ends, never misses a parent and computes that flip |
| Assigning.AssignRows | tools/oracle/parity.py:1316-1344 | the in-place assignment computes the specified one, also when the budget runs out half way |
| Assigning.MaximumMatching | tools/oracle/parity.py:1316-1344 | the owner arrays are mutual inverses along edges of the graph, and within budget no matching is larger |
| Assigning.AssignWork | tools/oracle/parity.py:1316-1344 | all searches together spend at most the sum of (k + 1) row widths over the searches k, never go below zero, and exhaust only a smaller budget |
| Counters.SurplusKeys | tools/oracle/parity.py:1197-1212 | the unmatched rows have exactly the multiset of keys that one side has in excess, and are rows of that side |
| Contents.SurplusShowsLast | tools/oracle/parity.py:1204-1211 | the row that stands for its projected key is the last one of its side |
| Counters.UnmatchedRows | tools/oracle/parity.py:1197-1212 | the counting loops yield the surplus of either side over the other |
| Uniform.UniformDetectorRows | tools/oracle/parity.py:1232-1252 | the fast path applies exactly when each side has a single mask and yields the surplus under the common mask |
| Uniform.UniformRefinesMatching | tools/oracle/parity.py:1232-1252 | on a uniform group the fast path reports as many rows on each side as any maximum matching leaves unmatched |
| Reconciling.GroupsDecide | tools/oracle/parity.py:1215-1229 | two lists can be paired one to one exactly when their groups by identity can |
| Grouping.BuildGraph | tools/oracle/parity.py:1261-1276 | the graph costs one unit per pair of rows, is complete when the budget covers that, and otherwise is a proper prefix with nothing left to spend |
| Grouping.MatchVariableMaskRows | tools/oracle/parity.py:1347-1375 | the bounded matcher of a group computes the specified result |
| Grouping.UnmatchedAreFewest | tools/oracle/parity.py:1347-1375 | within budget a group reports as few unmatched rows on each side as any matching could |
| Grouping.FastPathAgrees | tools/oracle/parity.py:1232-1252 | fast path and bounded matcher report equally many rows on each side |
| Grouping.VariableDecides | tools/oracle/parity.py:1347-1375 | within budget a group of equally many rows has no unmatched row exactly when its rows can be paired one to one |
| Grouping.UniformDecides | tools/oracle/parity.py:1232-1252 | a uniform group has no unmatched row exactly when its rows can be paired one to one |
| Grouping.VariableWork | tools/oracle/parity.py:1255-1375 | a group of n by m rows spends at most n*m units on its graph plus the search bound |
| Grouping.GroupBoundClosed | tools/oracle/parity.py:1255-1344 | that bound is n*m + m*n*(n+1)/2 |
| Verdict.GroupDetectorRows | tools/oracle/parity.py:1215-1229 | the groups hold each side's rows by identity in order, identities in order of first occurrence |
| Verdict.MatchRows | tools/oracle/parity.py:1378-1419 | the loop over sorted identities computes the specified tally, stopping at the first exhausted group |
| Verdict.MatchGroup | tools/oracle/parity.py:1396-1418 | one group adds to the tally as specified in all four branches |
| Verdict.CompareSecurityEvidence | tools/oracle/parity.py:1463-1486 | the comparison computes the specified status, keys and availability |
| Verdict.VerdictIsExact | tools/oracle/parity.py:1378-1486 | lists that can be paired one to one along compatible findings never yield BAD_MISMATCH, whatever the budget; all others do unless the budget ran out |
| Contents.StepReports | tools/oracle/parity.py:1396-1418 | what one group adds: one-sided rows to their own list, a uniform group the differences of the projected multisets, sides of different length nothing, other groups what a maximum matching leaves over |
| Contents.ReportHolds | tools/oracle/parity.py:1378-1486 | the keys reported missing are those of Sonar findings and the extra ones those of ours, whether the budget ran out or not; if it did not, the rows reported of every identity are what its group reports |
| Contents.ReportUpToStop | tools/oracle/parity.py:1396-1486 | a comparison that runs out stops at the first group that the costs so far exceed the budget with, and reports and judges the groups before it only |
| Contents.GroupRowsAscend | tools/oracle/parity.py:1389-1395 | a group's rows are those of its identity, ascending by the text of their keys |
| Contents.GroupOrderHolds | tools/oracle/parity.py:1388 | groups are taken for exactly the identities that occur |
| Contents.GroupOrderAscends | tools/oracle/parity.py:1388 | groups are taken in ascending order of the texts of their identities |
| Verdict.ForgettingIsSafe | tools/oracle/parity.py:1147-1170 | when findings on either side come to know less, a comparison within budget and without mismatch does not become a mismatch |
| Verdict.PassIsEquality | tools/oracle/parity.py:1232-1486 | PASS holds exactly when all evidence is available and the multisets of full detector keys are equal, and such a comparison spends no work |
| Invariance.OnlyKeysMatter | tools/oracle/parity.py:1378-1512 | as long as the sort keys tell the findings at hand apart, status, reported rows and exhaustion depend only on the two multisets of detector keys |
| Invariance.OrderIsIgnored | tools/oracle/parity.py:1388-1395 | as long as the sort keys tell the findings at hand apart, reordering either side changes nothing, even when the budget runs out |
| Invariance.ReviewIsIgnored | tools/oracle/parity.py:1505-1511 | changing review fields changes nothing, whatever the sort keys |
| Invariance.SomeRenderingTellsApart | tools/oracle/parity.py:1388-1395 | for all findings there are sort keys that tell them apart |
| Budget.WorkIsBounded | tools/oracle/parity.py:1173-1419 | the remaining work stays between zero and 100000, and a run whose groups' bounds add up to no more never exhausts it |
| Budget.SmallGroupFits | tools/oracle/parity.py:1173-1419 | the bound of a group of up to 57 rows a side fits the budget |
| Budget.OneAmbiguousGroupFits | tools/oracle/parity.py:1173-1419 | with a single group of at most 57 rows a side that needs the bounded matcher, the comparison never exhausts its budget |
| Gate.GateIsExact | tools/oracle/parity.py:1738-2038 | zero failures if and only if the native report is complete, every entry is well formed with a key of its own and its rule holds, the catalog is covered and no finding is unexpected |
| Gate.AcceptedMeansWellFormed | tools/oracle/parity.py:1738-1821 | the chain of checks accepts an entry exactly when its fields name a catalog rule, two different fixtures that exist, a positive minimum and nothing that takes the rule out of the comparison |
| Gate.StatusMeansHolds | tools/oracle/parity.py:1824-1902 | a rule's row is no failure exactly when the good fixture is clean, the bad fixture has enough findings and, unless excused, both analyzers report the same findings everywhere |
| Statuses.StatusesAre | tools/oracle/parity.py:1845-1880 | each status of a comparison row, from GOOD_FIRE to PASS, holds exactly under its condition on the findings in the bad and good fixture and elsewhere |
| Statuses.RowShows | tools/oracle/parity.py:1824-1902 | a comparison row shows each finding of the rule under its own side and file |
| Statuses.RefusalsAre | tools/oracle/parity.py:1738-1821 | an entry is compared, INFRA, SKIPPED or INVALID_EXPECTATION exactly under the conditions on its fields, and a refused one keeps its key |
| Statuses.RowsFollowEntries | tools/oracle/parity.py:1963-1986 | row by row, which entry it belongs to, and that compared rows of an incomplete report are unverified and show what they would have been |
| Statuses.MissingRowsAre | tools/oracle/parity.py:1987-1995 | one row, in the order of the keys, for each catalog key without an entry |
| Statuses.UnexpectedRowsAre | tools/oracle/parity.py:2008-2038 | a rule has a row for what is unexpected exactly when some finding of it is out of place |
| Statuses.ReplacesNothing | tools/oracle/parity.py:1769 | a name without `_bad` is its own default |
| Statuses.ReplacesFirst | tools/oracle/parity.py:1769 | the good fixture's default name has the first `_bad` and then each later one replaced |
| Statuses.ClassificationIs | tools/oracle/parity.py:2109-2129 | which answer of the server gives which status, and which of the two lists the key goes to |
| Gate.SeenKeys | tools/oracle/parity.py:1741-1746 | a key counts as seen from the first entry that has it, accepted or not |
| Gate.PassMeansEqual | tools/oracle/parity.py:1853-1866 | a rule whose row says PASS has equal findings in both reports and none in its good fixture |
| Gate.EvidenceIsAll | tools/oracle/parity.py:1645-1652 | the bad, good and other counters of a rule add up to all its findings |
| Gate.CleanGateMeansEqualReports | tools/oracle/parity.py:1937-2038 | with a catalog, zero failures mean that both reports are the same multiset on all catalog rules but the excused ones, that Sonar reports nothing outside the catalog, and that the rest of the native report belongs to declared native rules |
| Gate.CleanGateWithoutExcuses | tools/oracle/parity.py:1937-2038 | if no rule is excused, the whole Sonar report is the catalog part of the native report |
| Gate.IncompleteFails | tools/oracle/parity.py:1905-1934 | with an incomplete native report every expectation row is a failure |
| Gate.Compare | tools/oracle/parity.py:1937-2005 | the loop over expectations, with its growing set of seen keys, computes the specified rows |
| Gate.ClassifySqMisses | tools/oracle/parity.py:2109-2129 | rows are reclassified in place as specified, and the two returned lists name the reclassified keys in order |
| Gate.ClassificationKeepsFailures | tools/oracle/parity.py:2105-2129 | reclassification leaves the failure count unchanged, and row by row what failed still fails |
| Paging.ValidateSearchPage | tools/oracle/parity.py:260-311 | a page is accepted exactly when it is the requested one, complete for its offset and free of repeated keys, and only then are the caller's keys extended |
| Paging.ItemKeys | tools/oracle/parity.py:314-323 | keys are returned exactly when all are present, distinct and new |
| Paging.FetchPaginated | tools/oracle/parity_suite.py:2578-2639 | the loop ends for every server, succeeds exactly when all pages are accepted and all items can be placed, and then extends the shared keys and rows by exactly what it brought |
| Paging.FetchAllIsComplete | tools/oracle/parity_suite.py:2578-2639 | a fetch that returns has exactly the advertised total of items with pairwise distinct keys, in max(1, ceil(total / size)) pages |
| Fetching.FetchIsWhatIsServed | tools/oracle/parity_suite.py:2578-2639 | a fetch succeeds exactly when the server answers page after page, consistently, up to the one that completes the total, with no key twice, and has the items of these pages in order |
| Paging.PlacedIsPartition | tools/oracle/parity_suite.py:2605-2636 | file issues and project-level issues together are as many as the items, and without collection there are no project rows |
| Fetching.PlacesAreRight | tools/oracle/parity_suite.py:2605-2636 | placing succeeds exactly when items about the project have an approved rule and a message and all others an issue; the issues and the project rows are those of the respective items, in order |
| Paging.FetchStandardIssues | tools/oracle/parity_suite.py:2525-2568 | the loop over severity shards, sharing keys and project rows, succeeds and returns as specified |
| Paging.ShardsAreComplete | tools/oracle/parity_suite.py:2525-2568 | a sharded fetch that returns has file and project issues numbering exactly the baseline total, no key twice within or across shards |
| Fetching.ShardsAreWhatIsServed | tools/oracle/parity_suite.py:2525-2568 | a sharded fetch returns exactly when totals, shards, keys and number of items fit, and then what placing all items gives |
| CountPaging.CapturePages | xtask/src/main.rs:627-724 | the capture loop ends for every server and computes the specified capture |
| CountPaging.AddKeysIsNewKeys | xtask/src/main.rs:675-689 | inserting the keys of a page succeeds exactly when they are new, distinct and in the repository |
| CountPaging.SamePage | xtask/src/main.rs:726-753 | in step, the count-based and the offset-based page checks accept the same answers |
| CountPaging.PaginatorsAgree | xtask/src/main.rs:627-753 | for page size, 64-bit totals and repository keys as requested, the capture succeeds exactly when the Python fetch does, with the same total, keys and page count |
| CountPaging.LaterChecksAreRedundant | xtask/src/main.rs:695-718 | the empty-page check, the final key count and the final page count never change an outcome |
| Supervisor.SafetyIsExact | scripts/benchmark_cli.py:320-363 | in every interleaving, no group signal follows the reap if and only if no late interrupt has been followed by three more steps of the main thread |
| Supervisor.UnsafeRun | scripts/benchmark_cli.py:347-356 | there is a run with a signal after the reap |
| Supervisor.ExitIsClean | scripts/benchmark_cli.py:320-363 | in every interleaving, whoever leaves has reaped the leader exactly once with the watchdog finished if and only if no interrupt escaped from the start or the cleanup before the reap |
| Supervisor.UncleanRun | scripts/benchmark_cli.py:349-361 | there is a run that a second interrupt makes leave without a reap |
| Supervisor.WayOut | scripts/benchmark_cli.py:342-363 | which of the four ways out a run takes: escaped interrupts leave at once, late ones otherwise lead to the error of reaping twice, and in all other runs the reap was the last event |
| Supervisor.NoChildRun | scripts/benchmark_cli.py:347-361 | a late interrupt does lead to the error of reaping twice |
| Supervisor.QuietReturn | scripts/benchmark_cli.py:342-363 | a normal return without timeout sent no signal: the leader exited and was reaped |
| Supervisor.QuietRun | scripts/benchmark_cli.py:342-363 | there is such a run |
| Supervisor.TimedOutReturn | scripts/benchmark_cli.py:326-363 | a normal return with timeout sent TERM, waited the full grace period, sent KILL and then reaped |
| Supervisor.TimedOutRun | scripts/benchmark_cli.py:326-363 | there is such a run |
| Supervisor.InterruptedRun | scripts/benchmark_cli.py:349-361 | an interrupted run re-raises only after its own TERM, grace period and KILL |
| Supervisor.RaisedRun | scripts/benchmark_cli.py:349-361 | there is such a run |
| Supervisor.RunsEnd | scripts/benchmark_cli.py:320-363 | every interleaving, interrupted or not, ends within 22 steps |
| Supervisor.NeverStuck | scripts/benchmark_cli.py:320-363 | a run that has not left can take a step, or waits for the leader, in cleanup only after KILL was sent |
| Framing.FrameRoundTrip | tools/oracle/parity.py:190-201 | the stream of lengths and bytes decodes to exactly the records that went in, for lengths below 2^64 |
| Framing.FrameIsInjective | tools/oracle/parity.py:190-201 | equal streams come from equal records |
| Framing.FrameLayout | tools/oracle/parity.py:190-201 | each record is the length and bytes of its path and then of its data |
| Framing.BigEndianDigits | scripts/benchmark_cli.py:76-82 | lengths are written most significant byte first |
| Framing.FeedRecords | tools/oracle/parity.py:190-201 | the loop feeds the hash exactly that stream |
| Framing.ManifestPart | scripts/benchmark_cli.py:76-82 | a field adds its label, its length and its value |
| Framing.ManifestLayout | scripts/benchmark_cli.py:76-82 | each field is its label, the length of its value and the value |
| Framing.ManifestRoundTrip | scripts/benchmark_cli.py:76-82 | fields decode uniquely for labels without a zero byte and values shorter than 2^56 |
| Framing.ManifestIsUnique | scripts/benchmark_cli.py:76-82 | over labels none of which continues another with a zero byte, equal bytes come from equal fields |
| Framing.FieldReadsAsLabel | scripts/benchmark_cli.py:76-82 | any field and the label after it have the bytes of one longer label, so labels must be told apart |
| Fingerprint.ManifestDirectory | scripts/benchmark_cli.py:107-130 | the walk of a directory ends on every finite graph, cycles included, records what it observes and leaves the set of active directories as it was |
| Fingerprint.ManifestEntry | scripts/benchmark_cli.py:133-160 | a path's record is written in all nine cases, and the active directories are as before |
| Fingerprint.ManifestTarget | scripts/benchmark_cli.py:144-160 | what follows a path's own facts in its record: where a link leads, what a directory lists, what a file holds |
| Fingerprint.InputFingerprint | scripts/benchmark_cli.py:163-184 | the loop over arguments feeds the hash the specified facts |
| Fingerprint.FlattenUnique | scripts/benchmark_cli.py:107-160 | a record, followed by anything that can follow it, was written for no other observed tree |
| Fingerprint.FingerprintIsFaithful | scripts/benchmark_cli.py:76-184 | two runs feed the hash the same bytes exactly when they name the same arguments in order and what these lead to looks alike: kinds, facts, texts, contents, errors and, name by name, listings |
| Fingerprint.ViewsMeanLooks | scripts/benchmark_cli.py:107-160 | a walk observes the same of two paths exactly when they look alike |
| Fingerprint.ListingOrderIsIgnored | scripts/benchmark_cli.py:120-127 | the order in which directories list their entries does not show |
| Fingerprint.EntriesInOrder | scripts/benchmark_cli.py:120-127 | a directory is walked through all its entries, ascending by the bytes of their names |
| Fingerprint.TagsAreNames | scripts/benchmark_cli.py:107-184 | the labels of the fields |
| Fingerprint.DecimalReadsBack | scripts/benchmark_cli.py:163-184 | numerals read back as their numbers |
| Fingerprint.FormatsAreDecimal | scripts/benchmark_cli.py:135-141 | the formats of directories, files and links in decimal |
| Fingerprint.KindsAreTold | scripts/benchmark_cli.py:133-160 | the records of two paths of different kinds have the same bytes if and only if one links to something special and the other, with the same text and facts, to an empty directory that the walk enters |
| Fingerprint.RecordsTell | scripts/benchmark_cli.py:133-160 | records under one label have the same bytes exactly when the paths look alike |
| Fingerprint.LinkTargetsConflated | scripts/benchmark_cli.py:144-156 | the bytes recorded of a link to a special file are recorded of exactly those links to empty directories, found and not being walked, that have the same text and facts |
| Edits.SplitJoins | tools/oracle/python_quickfix_current_contracts.py:47-50 | splitting into lines loses nothing and makes no empty line |
| Edits.SplitsAtLineEnds | tools/oracle/python_quickfix_current_contracts.py:47-50 | lines break at every line end and nowhere else, a carriage return staying with its line feed |
| Edits.LinesComeBack | tools/oracle/python_quickfix_current_contracts.py:47-50 | a text made of lines, each ended by one of the eight line ends, splits into exactly these lines |
| Edits.LineStarts | tools/oracle/python_quickfix_current_contracts.py:48-50 | the loop computes where each line starts |
| Edits.OffsetsFollowPositions | tools/oracle/python_quickfix_current_contracts.py:52-53 | offsets order positions as they are read |
| Edits.LinesCountBack | tools/oracle/python_quickfix_current_contracts.py:52-53 | lines count from one, and from zero down back from the end; others do not exist |
| Edits.PositionAt | tools/oracle/python_quickfix_current_contracts.py:52-53 | every offset belongs to a position |
| Edits.SlicesCountBack | tools/oracle/python_quickfix_current_contracts.py:58-62 | the ends of an edit as slices count them: from the front, from the end, or cut to the text |
| Edits.Projected | tools/oracle/python_quickfix_current_contracts.py:43-63 | the loop that reassigns the source once per edit computes the specified projection, or fails as specified |
| Edits.ProjectionFails | tools/oracle/python_quickfix_current_contracts.py:43-63 | the projection fails exactly for a source that is not ASCII or a line that does not exist |
| Edits.ProjectionIsSimultaneous | tools/oracle/python_quickfix_current_contracts.py:55-63 | independent edits applied from the last start backwards give the untouched gaps and the replacements in reading order |
| Edits.PositionsDecide | tools/oracle/python_quickfix_current_contracts.py:52-63 | whether edits are independent can be read off their lines and columns |
| Edits.EditOrderIsIgnored | tools/oracle/python_quickfix_current_contracts.py:55-63 | edits no two of which start at one place give the same projection, or none, in whatever order they are listed, apart or overlapping, inside the source or not |
| EditOrder.OrderMattersExactly | tools/oracle/python_quickfix_current_contracts.py:55-63 | for edits that lie apart, every order of the list gives the same projection if and only if every edit slides past all insertions listed at its start |
| EditOrder.InsertionOrderMattersExactly | tools/oracle/python_quickfix_current_contracts.py:55-63 | if no replacement shares its start with another edit, the order is immaterial if and only if texts inserted at one place commute, two by two |
| EditOrder.TwoInsertions | tools/oracle/python_quickfix_current_contracts.py:55-57 | two insertions at any position may be swapped if and only if their texts commute |
| EditOrder.InsertionsInListOrder | tools/oracle/python_quickfix_current_contracts.py:55-63 | insertions at one place are applied in list order, each in front of those before it |
| Edits.ProjectionLength | tools/oracle/python_quickfix_current_contracts.py:55-63 | the length changes by the sum of what each edit adds and removes |
| Bench64.XorShiftInverse | crates/hoonarqube-bench/src/main.rs:207-213 | a right xor-shift by 22 bits or more is undone by two further shifts |
| Bench64.ShiftIsDivision | crates/hoonarqube-bench/src/main.rs:207-213 | shifting right by k divides by 2^k |
| Bench64.XorByBits | crates/hoonarqube-bench/src/main.rs:207-213 | a bit of an exclusive-or is set where exactly one of the two is |
| Bench64.MixIsBijective | crates/hoonarqube-bench/src/main.rs:207-213 | the output map is a bijection of the 64-bit values |
| Bench64.StatesMeet | crates/hoonarqube-bench/src/main.rs:199-213 | two states of one seed are equal exactly when their positions differ by a multiple of 2^64 |
| Bench64.DrawsMeet | crates/hoonarqube-bench/src/main.rs:199-213 | two draws of one seed are equal exactly when their positions differ by a multiple of 2^64 |
| Bench64.DrawInNumbers | crates/hoonarqube-bench/src/main.rs:207-213 | a draw written out in divisions, products and remainders of numbers |
| Bench64.Rng.NextU64 | crates/hoonarqube-bench/src/main.rs:207-213 | a draw advances the state once and returns the mixed state |
| Bench64.Rng.Below | crates/hoonarqube-bench/src/main.rs:216-221 | the result is below the bound; a zero bound gives zero and consumes no draw |
| Bench64.AbsorbIsBijective | crates/hoonarqube-bench/src/main.rs:173-178 | hashing any fixed bytes is a bijection of the hasher's state |
| Bench64.SingleByteChange | crates/hoonarqube-bench/src/main.rs:161-196 | inputs that differ in one byte hash differently, whatever surrounds it |
| Bench64.StepInNumbers | crates/hoonarqube-bench/src/main.rs:161-178 | a step written out: exclusive-or with the byte, then the product with the prime modulo 2^64 |
| Bench64.LittleEndianRoundTrip | crates/hoonarqube-bench/src/main.rs:180-182 | the bytes a word is hashed as determine the word |
| Bench64.LittleEndianDigits | crates/hoonarqube-bench/src/main.rs:180-182 | byte i of a word counts its multiples of 256^i |
| Bench64.StableHasher.Bytes | crates/hoonarqube-bench/src/main.rs:173-178 | the loop absorbs the bytes in order |
| Bench64.StableHasher.String | crates/hoonarqube-bench/src/main.rs:188-191 | a string is absorbed as its length and its bytes |

## Left out

- JSON parsing and the validation of artifacts: the model starts from validated findings, expectations as their fields, and server answers as their fields. What an item is turned into, or that it cannot be, is part of the item.
- Numbers in JSON evidence stand for their value, since Python's equality does not tell `True`, `1` and `1.0` apart; which of them thawing returns is not modelled.
- Sorting by `repr`: the sort keys are arbitrary functions to texts. Only the theorems about reordering ask them to tell the findings of the comparison apart, which the rendering of validated keys does.
- EditOrder.OrderMattersExactly: speaks of edits that lie apart, as the fixtures' do; for overlapping edits with equal starts the model only says what the projection is.
- SHA-256: no claim is made about collisions. The theorems are about the bytes that are hashed.
- HTTP, retries, processes, signals and clocks: arbitrary servers and arbitrary interleavings take their place. A grace period is an event, not a duration.
- Exceptions inside `_reap` other than interrupts and the error of reaping twice; interrupts while `killer.start` creates the thread, before which nothing is supervised, and interrupts after the `try` block, which pass through once the leader is reaped.
- A file system that changes during a walk, and Python's recursion limit on the depth of a walk.
- The state of the shared keys and project rows after a failed fetch, which ends the run.
- Reasons, messages and the serialized evidence of report rows; the ValueErrors for repeated catalog, fixture and native keys; `hoonarqube_findings` and its path collisions.
- `_security_counter_rows`, `_security_review_rows` and the `limits` list of a comparison: rendering of what is proved here.
- Fixture text generators and throughput figures of the benchmark.
- The comparisons in `parity_cli.rs`, `real_project_suite.py` and `duplication_relations.py`, which are multiset differences like the fast path here.
