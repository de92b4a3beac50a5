# Verified models of the CE Decky helper programs

A Dafny model of the programs that release, repair, test and install CE Decky, and proofs of what
those programs are for. `dafny verify dfyconfig.toml` checks all of it.

## What is modelled

- **The compatibility monitor** (`PairIdentity`, `Ledger`, `LedgerRuns`, `CurrentReleases`,
  `LedgerBranch`). The ledger
  is a class changed in place by `Discover` and `Record`; its specification is a pure step, and the
  properties are about every run of saved steps. The repository behind it is a commit graph with refs
  and a server that accepts only fast-forwards; any number of coordinators load, compute and save in
  any interleaving.
- **Repair by substitution** (`Substitution`, `TableSpans`, `ProtectedTree`, `TableRepair`,
  `FieldCounts`, `RepairExamples`, `AddedElement`, over `Sequences` and `Utf8`). A document is whatever stands before its root element,
  the root, and whatever follows. The start-tag scanner is a method proved against a tag grammar, the span collector a stack
  machine proved against the document tree, and the counting guard a theorem on sequences: what must
  hold of the pattern and the spans for a global replacement to stay inside them. What the comparison of
  protected content sees is a relation on the documents themselves.
- **The QA runner** (`PytestFilter`, `VitestFilter`, `QaReuse`). The two compilers of test filters are
  proved against parsers of the languages they compile to. The run loop and its record are proved over
  whole histories of runs.
- **Installing on a device** (`PanelJournal`, `ReloadTiming`). The count of panel rows, folded from a
  journal, against the panel that writes the journal; the wait for a settled process and the spacing
  of reloads, against clock readings.
- **Controlling a running session** (`RuntimeControl`, `RuntimeSession`). The client takes any stream
  of answers whatever; the second module says what its report means when the answers are true of a
  backend other writers use at the same time.
- **The changelog editor and the release check** (`ChangelogText`, `Changelog`, `ReleaseCheck`,
  `ChangelogHistory`, `ChangelogRuns`). Four documents as lines of text, under any commands.
- **The source digest in two languages** (`SourcePaths`, `SourceDigest`). One framing, two sort orders.
- **Three smaller loops**: the statistics reader (`FpsReader`), the paged search (`PageSearch`), and
  stopping a game (`StopGame`).

Imperative programs are methods and classes, each proved against a function or a condition; pure
programs are functions. What the world supplies is a parameter: clock readings, answers, process
tables, the hash, the XML parser, which characters `\w` matches, what a stage gives when it is run.

## Where the code does not do what it says

Each is a lemma that gives the exact condition, or a concrete case beside the one that does hold.

- The counting guard of a table repair is sound, over stretches that stand between `>` and `<` as field
  contents do, exactly for patterns that cannot overlap themselves or hold no `>`
  (`GuardSoundBetweenExactly`). With `s>s` and the table
  `<CheatTable><CheatEntries><CheatEntry><ID>7</ID><Address>s>s</Address></CheatEntry></CheatEntries></CheatTable>`
  the whole derivation succeeds and changes `<Address>` itself (`OverMisleads`). If a field lies inside a
  field, the guard counts an occurrence twice: on `<!--x-->` before such a table the derivation of `x`
  succeeds and changes the comment (`NestedMisleads`). The spans are disjoint exactly when no field lies
  in a field (`FlatExactly`).
- A discovery that finds two pairs with one key writes a ledger its own validation refuses, and only
  then (`DiscoverValidExactly`, `SaveRefusesExactly`). Two pairs have one key exactly when they agree on
  the version, the Decky tag and the first sixteen digits of both digests (`SameKeyExactly`). The two
  Decky releases a discovery pairs with come from two answers of the feed; a release taken down and
  published again under its tag, as a prerelease, between the two is both of them
  (`RepublishedCollides`), and nothing else does it (`CurrentValidExactly`).
- A vitest name of several lines is not seen beyond its first line once anything is excluded
  (`FilterFinds`, `LaterLineNotExcluded`).
- The two source digests differ for exactly those listings that hold two clashing paths: one with a
  directory whose name begins a sibling's name that goes on with a character below `/`
  (`StreamsAgreeExactly`); `src/a/x.ts` beside `src/a-b.ts` is such a pair (`DirectoryBesideFile`).
- The panel count still counts the row of an incoming renderer that was itself replaced
  (`LiveExactly`, `ReplacedAgainIsMiscounted`); `VerdictRightExactly` says when the answer is right all
  the same.
- The QA record is written for the tree a run leaves. A file edited while a stage runs is recorded as
  passed with it, and the next run reuses a stage that would fail (`EditedDuringTheRun`); reuse agrees
  with running exactly when the pass held of the tree that run left (`ReuseAgreesExactly`).
- Two reload requests are always 65 seconds apart exactly when the first, or one between them, was kept
  in the marker or an install record; otherwise there is a run in which they come at one moment
  (`RequestsSpaced`).
- A version named with a leading zero is started without complaint and then fails the release check
  (`LeadingZeroFails`). One named with a line feed at its end is started too, and no version is then
  stated by all four places (`LineFeedFails`). Documents stay in step exactly without that line feed (`StartedInSync`)
  and pass exactly for SemVer versions (`StartOrderly`).
- The statistics reader says it drops every reading whose focus cannot be compared with one before it;
  it keeps a reading with no focus known before it, if it is not the first (`KeptWithNothingKnown`).

## Model

| member | source | states |
|---|---|---|
| PairIdentity.ValidHasKey | scripts/decky_compat_monitor.py:101-130 | every identity the monitor accepts gets a key that the ledger's key pattern accepts |
| PairIdentity.SameKeyExactly | scripts/decky_compat_monitor.py:128-130 | two valid identities have one key exactly when they agree on the version, the Decky tag and the first sixteen digits of both digests |
| Ledger.Monitor.TrackRelease | scripts/decky_compat_monitor.py:457-462 | one pass of the inner loop: a waiting row for each pair of a release not yet known, rows that exist untouched, and the keys in order |
| Ledger.Monitor.TrackCurrent | scripts/decky_compat_monitor.py:456-463 | the whole of both loops: rows for every pair of the product, in its order, and the current keys |
| Ledger.Monitor.Discover | scripts/decky_compat_monitor.py:454-471 | the new ledger, and an answer that is the plan for the waiting testable keys and then the sorted retest, or the refusal of the retest |
| Ledger.Monitor.Answer | scripts/decky_compat_monitor.py:443-471 | on the ledger as it stands, the plan for the waiting testable keys and then the sorted retest, or the refusal of the retest, whose text is stripped first |
| Ledger.Monitor.Record | scripts/decky_compat_monitor.py:601-631 | refused exactly when a result is malformed, unplanned, repeated or about no row; otherwise each result with an outcome is on its pair's row field by field, history bounded, and the newly overdue pairs are marked and returned |
| Ledger.Monitor.SortKeys | scripts/decky_compat_monitor.py:469 | the keys of a set, each once and in increasing order |
| Ledger.ProductAt | scripts/decky_compat_monitor.py:456-457 | the pairs of a discovery, by their places: release by release, and within one release runtime by runtime |
| Ledger.WorkInOrder | scripts/decky_compat_monitor.py:468 | the pairs planned without being asked for are exactly the current ones that wait and have an executable, in the order of the current keys |
| Ledger.RecordedFields | scripts/decky_compat_monitor.py:608-620 | on the ledger a recording leaves, each result with an outcome is its pair's test: moment, run, revision, outcome, detail, control and candidate field by field, the test before at the head of the history |
| Ledger.AlertInOrder | scripts/decky_compat_monitor.py:621-631 | the pairs reported are exactly the current ones that have waited too long, in the order of the current keys |
| LedgerRuns.DiscoverValidExactly | scripts/decky_compat_monitor.py:159-191 | a discovery on a valid ledger leaves a valid ledger exactly when the pairs it finds have different keys |
| LedgerRuns.RecordValid | scripts/decky_compat_monitor.py:159-191 | a recording that is not refused leaves a valid ledger valid |
| LedgerRuns.OverdueReported | scripts/decky_compat_monitor.py:621-631 | a pair without a result in this recording is reported, and marked, exactly when it is current, waits, has done so for 72 hours and was not reported in the last 72; its row is otherwise as it was |
| LedgerRuns.PlanSound | scripts/decky_compat_monitor.py:443-471 | a plan repeats no key, every pair of it passes the recorder's guard, and it names exactly the waiting current pairs and the retest |
| LedgerRuns.PlanExactly | scripts/decky_compat_monitor.py:443-471 | from the text of the retest: refused exactly when it names an unknown pair or one without an executable; otherwise a pair is planned exactly when it is current, waits and has one, or is asked for |
| LedgerRuns.JudgedOnlyForced | scripts/decky_compat_monitor.py:468-469 | a pair already judged is planned only if the retest named it |
| CurrentReleases.CurrentValidExactly | scripts/decky_compat_monitor.py:398-412 | from the feed's two answers, a discovery leaves a valid ledger valid exactly when the prerelease chosen is not the stable release again, by tag and executable, whatever the other rows are |
| CurrentReleases.RepublishedCollides | scripts/decky_compat_monitor.py:398-412 | two valid releases the feed can answer that have one key, after which the ledger is not valid |
| LedgerRuns.SaveRefusesExactly | scripts/decky_compat_monitor.py:340-352 | from a valid ledger, the step to be saved is refused exactly for repeated keys or for the recorder's own refusals |
| LedgerRuns.RowsStay | scripts/decky_compat_monitor.py:454-471 | no step removes a row, changes its identity or first sight, or takes a judged pair back to waiting |
| LedgerRuns.NewestSixSaid | scripts/decky_compat_monitor.py:608-620 | over every run, the test and history of a pair say the newest six of all results ever recorded for it, newest first and field by field, and it waits exactly while there are none |
| LedgerRuns.AlertsSpaced | scripts/decky_compat_monitor.py:621-631 | over every run, the alerts of one pair are at least 72 hours apart and the first is at least 72 hours after first sight |
| LedgerRuns.AlertedUntested | scripts/decky_compat_monitor.py:621-631 | an alert is never given for a pair that has a result, in that recording or before |
| LedgerBranch.AllowedNeverRewinds | scripts/decky_compat_monitor.py:243-261 | whatever sequence of permitted requests is sent, nothing on the branch is ever taken off it and no other ref moves |
| LedgerBranch.WritesAllowed | scripts/decky_compat_monitor.py:243-261 | every request that starting the branch or saving on top of a commit takes is one the process lets out |
| LedgerBranch.FastForwardIsCompareAndSwap | scripts/decky_compat_monitor.py:340-352 | for a commit with one parent that landed, the server's fast-forward test passes exactly when the branch is still at that parent, or already at the commit |
| LedgerBranch.StepInv | scripts/decky_compat_monitor.py:311-352 | every step of every coordinator keeps the line of commits, what each commit says, and what each coordinator may rely on |
| LedgerBranch.BranchIsLinear | scripts/decky_compat_monitor.py:323-352 | under any interleaving the branch is one line, each landed commit made on the head it was computed from and holding its own ledger's page, and what landed stays landed |
| LedgerBranch.SaveIsSeen | scripts/decky_compat_monitor.py:698-703 | an accepted save leaves at the head exactly what its event makes of the ledger it loaded, with that ledger's page |
| LedgerBranch.InitialisesAlone | scripts/decky_compat_monitor.py:332-338 | where there is no branch, a coordinator left alone to initialise makes it: one commit without a parent at its head, an empty ledger begun at the given moment and that ledger's page, and nothing else |
| LedgerBranch.InitialisesOnce | scripts/decky_compat_monitor.py:747-752 | where there is one, initialising changes nothing on the server |
| LedgerBranch.SavesAlone | scripts/decky_compat_monitor.py:698-703 | in any reachable state with a branch, a coordinator left alone with an event puts one commit on the head, with what the event makes of the head's ledger and its page, exactly when the event is accepted and the ledger or the page differs; otherwise nothing changes |
| LedgerBranch.StaleSaveRefused | scripts/decky_compat_monitor.py:340-352 | of a save in any reachable state, the ref moves to the commit made exactly when the head is still the commit read, or already the one made |
| LedgerBranch.BranchKeepsHistory | scripts/decky_compat_monitor.py:698-703 | with any coordinators, the ledger at the head is valid and holds the newest six results and the alert times of everything that landed: no update is overwritten |
| Utf8.SearchInBytes | scripts/table_repair.py:162-177 | counting and replacing the bytes of a pattern gives the bytes of counting and replacing its characters |
| Utf8.EncodeOrder | rollup.config.js:22-26 | the order of two encodings by bytes is the order of the texts by code points |
| Utf8.EncodeInjective | scripts/frontend_source_digest.py:26 | different texts have different encodings |
| Substitution.SearchParts | scripts/table_repair.py:171-177 | a cut text holds no more occurrences than the whole; when as many, replacing the parts replaces the whole, if the pattern cannot overlap itself or cannot lie on the cut |
| Substitution.CountGuard | scripts/table_repair.py:171-177 | the same for any number of stretches, if the pattern cannot overlap itself or lacks the element every editable stretch follows: when the counts agree, only those stretches change |
| Substitution.GuardSoundExactly | scripts/table_repair.py:171-177 | over stretches cut anywhere, the guard protects the rest exactly for patterns that cannot overlap themselves |
| Substitution.GuardSoundBetweenExactly | scripts/table_repair.py:171-177 | over non-empty stretches that stand between `>` and `<`, exactly for patterns that cannot overlap themselves or hold no `>` |
| TableSpans.ScanStartTag | scripts/table_repair.py:121-133 | the quote-aware loop returns what the recursive scan finds: where content begins, or that there is none |
| TableSpans.ScanFindsContent | scripts/table_repair.py:119-136 | on every start tag of the grammar, whatever is in its attribute values, the scan finds the tag's own end, and content exactly when the tag does not close itself |
| TableSpans.EditableSpans | scripts/table_repair.py:115-147 | the loop over parser events returns the sorted spans of the stack machine's run |
| TableSpans.RunNode | scripts/table_repair.py:137-145 | the stack machine over one element adds that element's field contents and leaves the stack as it was |
| TableSpans.ScanDocument | scripts/table_repair.py:115-147 | over a whole document, prolog and trailer included, the spans are exactly the non-empty contents of fields directly in a record |
| TableSpans.FlatExactly | scripts/table_repair.py:145-147 | the spans are disjoint exactly when no field lies inside a field |
| TableSpans.AllNestedFieldsOverlap | scripts/table_repair.py:145-147 | in every document where one does, one span lies inside another |
| TableRepair.OverlapDecoded | scripts/table_repair.py:162-177 | a pattern whose bytes overlap themselves overlaps itself as characters |
| TableRepair.Derive | scripts/table_repair.py:150-201 | the loop of substitutions, the reading of its result and the comparison of protected content give what the recipe makes of the source, or the first refusal |
| TableRepair.SubstituteKeepsRest | scripts/table_repair.py:162-180 | an accepted substitution of a pattern that cannot overlap itself, or holds no `>`, leaves every byte outside the field contents as and where it was, if no field lies in a field |
| TableRepair.DeriveStages | scripts/table_repair.py:162-201 | a whole derivation goes through one text per substitution, each such step changing field contents alone, and ends in a document with the source's protected content |
| FieldCounts.DerivesExactly | scripts/table_repair.py:150-201 | a derivation gives a text exactly when 1 to 64 substitutions lead to it, each bounded, counted right in the text and in the contents of its fields, and made everywhere; the text is not the source, and both are documents with the same protected content |
| ProtectedTree.ProtectedExactly | scripts/table_repair.py:106-112 | two documents with one root each compare as equal exactly when they agree element by element in names and attributes as read, in nesting, and in character data outside the own text of fields directly in a record |
| AddedElement.AddedElementRefused | scripts/table_repair.py:195-196 | `<x/>` for the `q` in a field: the guard lets it through and the derivation is refused as altered |
| AddedElement.AddedIsRead | scripts/table_repair.py:162-201 | a parser that reads that table before and after exists |
| FieldCounts.GuardCounts | scripts/table_repair.py:172-174 | the sum the guard compares with is the count over the contents of the fields, whatever the order of the spans |
| FieldCounts.LetterGuardExactly | scripts/table_repair.py:171-177 | in any document, for one letter, the guard passes exactly when it stands outside the fields as often as it is counted again in fields that lie in fields |
| RepairExamples.OverMisleads | scripts/table_repair.py:162-201 | a table and one substitution of `s>s` for which the whole derivation succeeds and a start tag changes |
| RepairExamples.NestedMisleads | scripts/table_repair.py:162-201 | a table with a field in a field for which the whole derivation succeeds and a comment before the root changes, with every span after it |
| RepairExamples.ExamplesAreRead | scripts/table_repair.py:162-201 | parsers that read both tables before and after exist |
| SourcePaths.OrdersAgreeExactly | rollup.config.js:22-26 | the component-wise and the byte-wise order put two paths the same way exactly when the paths do not clash |
| SourcePaths.CommonRoot | scripts/frontend_source_digest.py:24 | sorting absolute paths is sorting the paths below their common root |
| SourcePaths.SortSorts | scripts/frontend_source_digest.py:24 | a listing sorted in either order is in that order and has the same files |
| SourcePaths.SortedBothExactly | rollup.config.js:11-27 | a listing in one program's order is in the other's exactly when no two of its paths clash |
| SourceDigest.Feed | rollup.config.js:32-43 | one file feeds its framing to the digest, or is refused when a length does not fit its field |
| SourceDigest.FrontendDigest | scripts/frontend_source_digest.py:22-32 | the loop returns the hash of the framed control files and then the sorted sources |
| SourceDigest.DecodeStream | scripts/frontend_source_digest.py:25-31 | a decoder gets back the list of names and contents that was framed |
| SourceDigest.StreamInjective | scripts/frontend_source_digest.py:25-31 | different listings never give the same stream |
| SourceDigest.StreamsAgreeExactly | rollup.config.js:29-45 | found in any order, the same files give both programs one stream exactly when no two source paths clash |
| SourceDigest.DirectoryBesideFile | rollup.config.js:22-26 | for `src/a/x.ts` beside `src/a-b.ts`, whatever the files hold, the two streams differ |
| PytestFilter.Terms | scripts/qa.py:882-893 | the loop over a phrase's words returns the terms that `TermsExactly` describes, or the refusal |
| PytestFilter.WordsAreRuns | scripts/qa.py:863-884 | the words of a phrase are its maximal runs of word characters, all of them, from left to right, a run being given by its places and the characters on either side |
| PytestFilter.RunsUnique | scripts/qa.py:863-884 | there is one such list |
| PytestFilter.GroupsUnique | scripts/qa.py:882-890 | words are put together into terms in one way: two side by side are in one term exactly when one of them is reserved |
| PytestFilter.TermsExactly | scripts/qa.py:882-893 | a phrase that is not refused gives all its runs, in order, put together so, with `_` between the words of one term |
| PytestFilter.RefusedExactly | scripts/qa.py:891-892 | a phrase is refused exactly when it has no run of word characters, or one run and that one reserved |
| PytestFilter.ExpressionMeans | scripts/qa.py:896-904 | the expression for accepted terms parses whole under the `-k` grammar, and evaluates to some name's terms all held and no exclude's |
| PytestFilter.SelectionMeans | scripts/qa.py:861-904 | from phrases to meaning, over their runs of word characters: refused exactly when a phrase has none, or one that is reserved, and otherwise read by pytest as some name's terms all held and no exclude's, for every test |
| VitestFilter.EscapeReads | scripts/qa.py:713-715 | an escaped phrase reads back as the literal phrase, in any context that may follow it |
| VitestFilter.FilterReads | scripts/qa.py:718-735 | every pattern the compiler makes is a well-formed expression, and the intended one |
| VitestFilter.FilterFinds | scripts/qa.py:718-735 | what the pattern finds, for every test name, lines or not |
| VitestFilter.FilterSelects | scripts/qa.py:710-735 | a one-line name is found exactly when it holds some name text, or none was given, and no exclude text |
| VitestFilter.LaterLineNotExcluded | scripts/qa.py:718-735 | a two-line name that holds an excluded text and is found |
| QaReuse.Dedupe | scripts/qa.py:989-998 | the loop keeps the first stage of each key and drops the rest |
| QaReuse.DedupedKeys | scripts/qa.py:989-998 | what it leaves has one stage of each key there was |
| QaReuse.DedupedFirsts | scripts/qa.py:989-998 | it is the first stage of each key, in the order of the stages, by their places |
| QaReuse.RunStages | scripts/qa.py:1595-1651 | the run loop's results, the record left on disk, and the exit code |
| QaReuse.ReportsEveryStage | scripts/qa.py:1597-1638 | every selected stage is reported exactly once, in order, and exit 0 means each one passed or was reused |
| QaReuse.LoopRecord | scripts/qa.py:1613-1618 | the loop leaves an entry as it was exactly when no stage of its key was run without passing, and takes it out otherwise |
| QaReuse.RecordExactly | scripts/qa.py:1613-1650 | what a saved run leaves of a stage's entry: the fingerprint at its end if the stage was run and passed, nothing if it was run and did not, the entry as it was otherwise |
| QaReuse.ElseStays | scripts/qa.py:1613-1650 | entries of no stage of the run stay as they were |
| QaReuse.RecordJustified | scripts/qa.py:1595-1651 | over any history of runs, every entry is the end-of-run fingerprint of a saved run the stage passed in, with no bad run of it since |
| QaReuse.ReuseJustified | scripts/qa.py:1601-1612 | a stage is reused only when reuse is allowed for it and its fingerprint now is one that record justifies |
| QaReuse.ReuseAgrees | scripts/qa.py:1601-1612 | when running a stage gives what its fingerprint says and passes hold of the tree a run leaves, every reused stage would have passed, and the report and the exit code are those of the run without a record |
| QaReuse.ReuseAgreesExactly | scripts/qa.py:1639-1651 | where running gives what the fingerprint says, a reused stage would have passed exactly when, in the run the record has it from, the pass held of the tree that run left |
| QaReuse.EditedDuringTheRun | scripts/qa.py:1639-1651 | two runs, a file edited during the first, after which a stage that would fail is reused |
| PanelJournal.InstancesAfter | scripts/target_plugin_install.py:949-989 | the loop's imports, live rows and unpairable mounts are those of the fold; an unreadable stretch gives none |
| PanelJournal.CountsLive | scripts/target_plugin_install.py:982-988 | the running set is exactly the rows the new renderer mounted and did not dismount after |
| PanelJournal.CountContinues | scripts/target_plugin_install.py:1081-1085 | reading on from an earlier reading equals reading it all again |
| PanelJournal.CountGrows | scripts/target_plugin_install.py:982-986 | on a longer journal neither imports nor unpairable mounts go down, and mounts account for both |
| PanelJournal.BoundaryExactly | scripts/target_plugin_install.py:852-904 | a panel starts from the boundary taken of it exactly when each of its renderers is named by an entry already on record or started no later than the request and its margin |
| PanelJournal.LiveExactly | scripts/target_plugin_install.py:907-989 | the count never misses a row on screen, and equals what is on screen exactly when no incoming renderer was replaced with a row up |
| PanelJournal.VerdictRightExactly | scripts/target_plugin_install.py:1099-1107 | the answer is right about the screen exactly when no incoming renderer was replaced with a row up, or there are two rows all the same, or a row that could not be paired keeps the answer back from the only paired one, which went |
| PanelJournal.VerdictExactly | scripts/target_plugin_install.py:1099-1107 | when no incoming renderer was replaced with a row up, `duplicate` means at least two rows; with every import paired, each answer is exactly how many rows there are |
| PanelJournal.ImportsOneAtATime | scripts/target_plugin_install.py:146-154 | any number of imports that do not overlap, with any doings of outgoing renderers between, gives `one` |
| PanelJournal.OverlapIsSeen | scripts/target_plugin_install.py:146-154 | in any run, two imports of one renderer that overlap leave both rows up and are reported as `duplicate` |
| PanelJournal.ReplacedAgainIsMiscounted | scripts/target_plugin_install.py:1089-1096 | a run with one row on screen that is reported as two |
| ReloadTiming.WaitForSettledBackend | scripts/target_plugin_install.py:799-849 | settled is reported on the first pass by which one process alone was seen for the whole window, and unsettled exactly when there is no such pass before the deadline |
| ReloadTiming.Owed | scripts/target_plugin_install.py:332-372 | the wait is between 0 and 65 seconds, reaches 65 after the last request, and is one whole window when that lies in the future |
| ReloadTiming.RequestsSpaced | scripts/target_plugin_install.py:275-286 | for a given pattern of what the installs kept, requests `i` and `j` are 65 seconds apart in every run exactly when one from `i` up to before `j` was kept in either place |
| RuntimeControl.ValidateActions | scripts/target_runtime_control.py:30-45 | accepts exactly 1 to 64 supported mutations of distinct records |
| RuntimeControl.RequireSameTarget | scripts/target_runtime_control.py:74-84 | passes exactly for the same session, identity, attachment and process, connected when it must be; each refusal has its own cause |
| RuntimeControl.Absorb | scripts/target_runtime_control.py:94-104 | one sample is refused exactly when ambiguous, about a wrong record or against an earlier one; otherwise its acknowledgements are added and none is lost |
| RuntimeControl.AwaitAcknowledgements | scripts/target_runtime_control.py:86-114 | succeeds exactly when for some number of polls up to 96 those answers are statuses of the target that say nothing ambiguous, every command is acknowledged in them for the first time with a connected bridge at the last, and that one is connected as a whole; it times out exactly after 96 clean polls without that, and each other refusal has its own cause at the last poll |
| RuntimeControl.WaitedExactly | scripts/target_runtime_control.py:86-114 | such a wait ends as early as it may |
| RuntimeControl.Pick | scripts/target_runtime_query.py:92-98 | the last result of each query in order, refused exactly for a wrong record |
| RuntimeControl.Query | scripts/target_runtime_query.py:74-108 | submits at most one batch and only queries; succeeds exactly for 1 to 64 distinct records, a connected session, a good receipt and some number of polls up to 96 of one session, the last the first to show all results, each for its record; times out exactly after 96 without; the results are those of the last poll |
| RuntimeControl.Control | scripts/target_runtime_control.py:48-138 | for any answers: reports exactly when the request is permitted, the preflight ready, the receipt good, the wait may report, and, if no acknowledgement is other than ok, the readback succeeds; the mutations are submitted at most once, before at most one batch of queries, and not at all when the flag is false; `ok` exactly when all was acknowledged, read back and active as asked |
| RuntimeSession.AtKeeps | scripts/target_runtime_control.py:48-138 | whatever writers, bridge and client do, logs and acknowledgements only grow and stay consistent |
| RuntimeSession.ReceivedIsHeld | scripts/target_runtime_control.py:63-70 | a good receipt means the batch is in the session's log at its own generations, the next ones when it was taken |
| RuntimeSession.SeenIsAcked | scripts/target_runtime_control.py:91-104 | an acknowledgement seen in a status of the session is that session's own, and stays |
| RuntimeSession.ControlMeans | scripts/target_runtime_control.py:48-138 | a reported control ran in one session throughout; its mutations, then its queries, are in that log with their own acknowledgements |
| RuntimeSession.OkMeans | scripts/target_runtime_control.py:129-138 | after `ok` every mutation is in the log as the client's own, acknowledged ok for its record, and a later query of the client's own reads it back ok and active as asked |
| ChangelogText.ParseSpelled | scripts/changelog.py:61-66 | a heading or notes line written from a version and a date reads back as them |
| ChangelogText.EntryFrom | scripts/changelog.py:81-97 | an accepted entry starts with one of the five labels, and its only whitespace is blanks, never two in a row |
| ChangelogText.PartsRoundTrip | scripts/changelog.py:182-186 | a printed version reads back as its three numbers |
| ChangelogText.ShownIsSemVer | scripts/check_release.py:10-14 | a printed version is a SemVer version |
| Changelog.AddEntry | scripts/changelog.py:76-135 | the edit's lines or its refusal; the cursor loop ends after the heading's blank lines |
| Changelog.AddedInSync | scripts/changelog.py:76-135 | adding an accepted entry leaves all four places stating what they did |
| Changelog.DatedInSync | scripts/changelog.py:138-162 | moving the date succeeds on documents in step and leaves them in step at the new date |
| Changelog.YearIsWhole | scripts/changelog.py:172-180 | the lengths of the months a date is checked against make up the Gregorian calendar's year, leap years in it |
| Changelog.StartedInSync | scripts/changelog.py:198-254 | starting a version leaves all four places stating the new one, and both dates the new date, exactly when it was not named with a line feed at its end |
| ReleaseCheck.CheckRelease | scripts/check_release.py:80-115 | the check's answer, its loop over the section's lines included |
| ReleaseCheck.PassesExactly | scripts/check_release.py:80-115 | documents in step pass exactly when the version is SemVer, nothing says "Unreleased" and the newest section's entries are labelled |
| ReleaseCheck.HeadingMentions | scripts/check_release.py:93-94 | a heading says a word exactly when its version does |
| ChangelogHistory.WrittenAndRead | scripts/changelog.py:284-287 | lines without line breaks are read back line for line as written |
| ChangelogHistory.AddedUnbrokenExactly | scripts/changelog.py:112-125 | after an addition the newest section is one unbroken list exactly when it was before |
| ChangelogHistory.AddedHistory | scripts/changelog.py:112-135 | an addition puts one entry at the head of the history, under the newest version, and changes nothing else in it |
| ChangelogHistory.DatedHistory | scripts/changelog.py:158-162 | a date move leaves the history, the section and the older sections as they were |
| ChangelogHistory.StartedHistory | scripts/changelog.py:249-251 | a new version leaves the history as it was and the old newest section whole below it |
| ChangelogRuns.AddOrderly | scripts/changelog.py:165-169 | an entry leaves the documents in order and releasable exactly when it does not say "Unreleased" |
| ChangelogRuns.StartOrderly | scripts/changelog.py:198-254 | a started version leaves them so exactly when it is SemVer |
| ChangelogRuns.LeadingZeroFails | scripts/changelog.py:240-254 | from documents in order at 0.3.0, `0.3.01` is started and then fails the release check |
| ChangelogRuns.LineFeedFails | scripts/changelog.py:182-186 | from the same, `0.3.1` with a line feed is started and leaves no version the four places agree on |
| ChangelogRuns.NextIsLater | scripts/changelog.py:240-247 | the next version is strictly later, and before 1.0 with the same second number |
| ChangelogRuns.NextPatch | scripts/changelog.py:241-242 | with no version named it is the next patch, never refused for what it is |
| ChangelogRuns.RunsKeep | scripts/changelog.py:257-308 | any commands keep the four places in step, the release check passing, the newest section one list and the older text whole; each version started is later than all before it, and the history gains exactly the entries added, each under the version stated at the time |
| FpsReader.SplitSound | scripts/target_session_cost_probe.py:347-349 | splitting loses nothing, and no line holds a newline |
| FpsReader.SplitOn | scripts/target_session_cost_probe.py:347-349 | splitting on from what was pending gives the lines of the whole text |
| FpsReader.Reader.Consume | scripts/target_session_cost_probe.py:358-371 | one line appends a rate, or gives the last rate its focus and notes a new focus, or changes nothing |
| FpsReader.Reader.Run | scripts/target_session_cost_probe.py:337-354 | the samples and focuses depend on the text alone, not on how it came in chunks, up to and at the cap |
| FpsReader.ReadingsExactly | scripts/target_session_cost_probe.py:351-371 | from a list of lines, up to the cap: one reading for each line that gives a rate, in order, with that rate and the first focus given after it and before the next rate; and every focus given, once |
| FpsReader.CappedStays | scripts/target_session_cost_probe.py:353-354 | past the cap nothing that comes later changes anything |
| FpsReader.Usable | scripts/target_session_cost_probe.py:373-402 | keeps exactly the readings that are not first, are paired, and whose focus is the last one known before them or the first known at all |
| FpsReader.KeptWithNothingKnown | scripts/target_session_cost_probe.py:391-402 | a reading kept though no focus was known before it |
| PageSearch.Search | scripts/target_panel_read.py:897-907 | one direction ends on its first page with the row, at a refused turn, or as far as it goes |
| PageSearch.PageThrough | scripts/target_panel_read.py:882-908 | without refusals the row is found exactly when a page within reach has it; at most twice the limit of turns; not found means every page in reach lacked it |
| StopGame.GameIdsDiffer | scripts/target_game_launch.py:89-93 | no two games, store apps and shortcuts, share a game id |
| StopGame.Ancestors | scripts/target_game_launch.py:96-107 | ends on every parent map, cyclic ones too, with exactly the process and all above it |
| StopGame.GameProcesses | scripts/target_game_launch.py:110-145 | the game's and CE Decky's processes of one scan, none protected, or a refusal past the bound |
| StopGame.AwaitEnd | scripts/target_game_launch.py:299-303 | ends at the first scan with nobody left or, with somebody, the first by which the wait is over; refused exactly at a scan past the bound |
| StopGame.Stop | scripts/target_game_launch.py:268-316 | every signal goes to a process this game's in the scan just before it and never protected; TERM once and only with nothing owned, KILL only to those still there once the whole wait is over; called stopped only when a scan had none left or all were gone at KILL, and running only after the settling time |

## Left out

- Substitution.GuardSoundExactly: is about stretches cut anywhere in a text; for the stretches a real table has, `SubstituteKeepsRest` gives a condition that is enough.
- Substitution.GuardSoundBetweenExactly: is about texts of stretches between `>` and `<`, not only about those that are well-formed documents.
- TableRepair.Derive: compares protected trees where the program compares their serialisation, and leaves out the refusal of signed tables and of missing or repeated record IDs.
- VitestFilter.FilterFinds: matches by characters, where JavaScript without a Unicode flag matches UTF-16 units, which makes no difference to literal texts and `.*`.
- PanelJournal.ImportsOneAtATime: takes the renderer that is incoming to be one, and its records to carry their identities.
- Changelog.StartedInSync: says nothing of how the broken files are read back, and takes the manifest and the backend as lines already split into what surrounds a version, so a pattern that matches across lines is not modelled.
- FpsReader.Reader.Run: leaves out when each reading arrived, which does depend on chunks.
- RuntimeSession.OkMeans: relies on a backend that takes a batch only at its next generation and a bridge that acknowledges a command once and for its own record; both are outside these programs.
- Concurrent writers other than the panel's own commands, and what a command does inside the game.
- SHA-256, the XML parser, ElementTree and the float parser: uninterpreted, or a small grammar.
- The extraction of records, and the literal inventory.
- JSON shapes and the size budget of the ledger; probing, classification of probe output, attestation and downloads.
- The rendering of status pages, commit messages, reports and refusals.
- Digits other than the ASCII ones in versions, dates and keys.
- Symbolic links and directory walking in the source digest; a listing is given.
- The `--tag` half of the release check, package manager pinning, and the manifest's other keys.
- Trimming of the panel's journal, and its parsing from JSON lines.
- HTTP, WebSocket, SSH, subprocess and file-system plumbing, argument parsing, and screens.
