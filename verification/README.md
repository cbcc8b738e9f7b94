# Release tooling, modelled and proved

This project models the release tools of the repository in Dafny and proves
what they promise: the hash-chained ledger of acceptance runs and its JSON, the
harness that may record a run in the release manifest, the version stamper, the
drift gate's constant folder, reachability walk and control-file reader, the
guest-agent client, the framebuffer encoder, the publisher, the package-graph
and ship-list checks, and the evidence snapshot.

`dafny verify dfyconfig.toml` checks everything.

| files | what they hold |
|---|---|
| `Json`, `JsonRoundTrip`, `JsonCanonical`, `KeyOrder`, `CanonicalText`, `JsonBytes`, `JsonParsed`, `JsonPrefix`, `Dicts` | values, the canonical printer and its text, the parser, and how they undo each other |
| `Ledger`, `LedgerFile`, `Entries`, `TornLines`, `Chain`, `Appends`, `Receipts` | the run ledger, its file and its rows, cut-off writes, tamper evidence, overlapping appends, receipts |
| `Acceptance`, `AcceptanceProofs`, `ExitCodes`, `Concurrent` | runs, verdicts, exit codes and the guards in front of the release manifest, run after run and at the same time |
| `Stamp`, `StampProofs`, `Refusals` | compute, check, replace, roll back; what is refused; the drift gate's version comparison |
| `Fold`, `Formats`, `Joins`, `FoldShape`, `FoldProofs`, `Walk` | the constant folder against an evaluation semantics with conversions and format specifications; dead-branch pruning against execution |
| `Agent`, `Png` | line framing over a byte stream; the PPM to PNG encoder and a decoder |
| `Publish`, `PublishProofs`, `PlanOrder`, `Recovery` | the upload plan and its order, every state an upload run goes through, and the run after one that broke off |
| `Control`, `ControlProofs`, `ControlText`, `Closure`, `ShipLists` | two control-file readers, dependency closure, ship lists |
| `Snapshot` | bounded evidence accounting and lexical containment |
| `Outcomes`, `Octets`, `Text` | results, bytes, white space and words |

Every file name ends in `.dfy`.  A module has its file's name, except `Ledgers`
in `Ledger.dfy` and `Snapshots` in `Snapshot.dfy`.

## How the model is built

Objects that change are classes with the source's fields (`Ledger`, `Receipt`,
`Harness`, `Stamper`, `Channel`, `Bucket`, `Shipment`, `Snapshot`); loops are
methods with invariants.  Each method is tied by its `ensures` to a function of
its input or of the old state, and the promises are lemmas about those
functions, so they hold of the methods.  Functions that code and specification
share, such as an order, a join or a test, have lemmas that say what they are in
other terms.  Each run-time failure the source handles, or lets out, is a result:
`Err`, `Raised`, `Crashed`, `Interrupted`.

What the code cannot decide is a parameter and every lemma is for all of its
values: the digest function, the clock, compression and checksum, the regular
expressions (a function from a body to the capture spans of its matches), the
glob expansion, what the JSON parser makes of an agent line, how each file
replacement or upload ends, what a copied file does while it is copied, and all
outcomes of acceptance cases.

Strings are sequences of code points.  Lemmas about ledger rows ask that no string
holds a high surrogate directly followed by a low one; text read from a file never
does, and names and arguments from the operating system hold low ones at most.

No digest is assumed to be injective, which no 256-bit digest is.  Where a
conclusion needs it, the lemma names the finitely many texts involved
(`Chain.NoBreach`): either the conclusion holds or those very texts are a
collision.

## Where the code and its promises differ

The model follows the code.  These are theorems, not remarks:

- A payload that already holds `entry_sha256` gives a row that does not verify:
  the digest is taken with the key in and checked with it out
  (`Chain.AppendKeepsClean`).
- The chain shows edits, deletions in the middle, insertions and reorders, but
  dropping the last rows leaves a clean ledger (`Chain.CleanPrefix`).  Only
  knowing the head fixes the history (`Chain.HeadFixesHistory`).
- Two appends that overlap leave two rows with one predecessor, and the ledger
  never verifies again (`Appends.InterleavedAppends`, `Appends.BrokenStaysBroken`).
- A string with a high surrogate followed by a separate low surrogate has the
  canonical bytes of the string with the one combined character
  (`JsonCanonical.SplitPairsCollide`); `JsonCanonical.StringsShareBytesIff` and
  `JsonBytes.ValuesShareBytesIff` say exactly what shares bytes.  Nothing
  parsed from a file holds such a pair (`LedgerFile.EntriesArePlain`).
- `os.write` may store less than it was given and `append` does not look.  A
  ledger whose last line was cut cannot be read; if just the line break is
  missing it can, until the next append returns normally and makes it unreadable
  (`TornLines.TornWrite`, `TornLines.AppendAfterMissingBreak`).
- An interrupt after `os.replace` returned but before the exception is marked
  leaves the file stamped while the report says the tree is as it was found
  (`StampProofs.UnflaggedInterrupt`); one between the replacement's return and the
  note in `written` skips the rollback altogether.
- An exception outside a replacement skips the rollback too: an interrupt between
  two files, or `outstanding` behind the last one, which raises when an acceptance
  file it reads holds no object or a file is not UTF-8
  (`StampProofs.OutstandingRaises`).  `StampProofs.RestoredIffUndone` is the exact
  condition, over all of these ways, for the tree to be as it was.
- The rollback reports a restored file as failed when only the directory sync
  failed (`StampProofs.RestoreExactly`), and when a restore raises anything but an
  `OSError` the files still to be restored keep their new bytes with no report
  (`StampProofs.InterruptLeavesStamped`).
- `fold_env` says it iterates to a fixed point; it makes four passes.  Six
  assignments suffice for a name that folds to one string and can hold another,
  although every binding folds and every bucket holds one value
  (`FoldProofs.FourPassesCanMislead`).
- A name bound to a string in one place and to something that does not fold in
  another folds to the string, which the source does not prove
  (`FoldProofs.UndecidedBindingMisleads`).  `FoldProofs.SoundIffSettled` is the
  exact condition for both failures, when every binding either folds or has an
  operand that the folder does not look into.
- Declining a name with two values is said to lose nothing.  It loses what is built
  from the name: a string that some run gives another name is the value of no
  binding (`FoldProofs.DecliningLosesAValue`).  Nothing is lost when every binding
  folds to a single value (`FoldProofs.NothingLost`).
- The folder ignores conversions and format specifications in f-strings and joins
  a single string as one element.  `FoldProofs.FieldFoldsRightIff`,
  `FoldProofs.FieldFoldsRightAlways` and `FoldProofs.JoinOfOneFoldsRightIff` say
  exactly when that is right.
- `imports_module` should hold when a file really imports the module.  It also
  holds for an import behind a `raise`, because reachability is decided by literal
  tests alone (`Walk.RaiseHidesImport`), and for `from .name import x`, which
  imports another module (`Walk.RelativeImportCounts`); and it misses
  `import name.sub`, which imports `name` first (`Walk.SubmoduleImportMissed`).
  `Walk.MissedIff` and `Walk.FalseAlarmIff` say exactly when it errs, either way,
  and `Walk.LiveTree` does so for trees without dead statements.
- `depends_field` does not stop at a blank line, so a stanza without `Package`
  after the package's own lends it its `Depends`
  (`ControlProofs.StrayStanzaMisleads`).  `ControlProofs.ReadersDiffer` says what
  is added, and so when the readers agree.
- A second publication writes the pointer again, always; the comment beside
  `pointer_object` says it reports UNCHANGED (`PublishProofs.SecondRunIsFixed`).
  Objects already in the bucket are compared by their digest metadata when they
  have some, not by their bytes (`PublishProofs.BytesIffMetadataHonest`).
- A publication that broke off can be repeated, unless an upload stored something
  wrong under an immutable key: then every later run stops at the comparison and
  changes nothing (`Recovery.RecoversIff`, `Recovery.WronglyStoredStops`).
- Two install lines with one destination satisfy the reverse manifest although one
  of the two files is installed nowhere (`ShipLists.CollisionHidesAFile`).
- The framebuffer encoder accepts an empty image and sizes from 2^31 to 2^32 - 1,
  which PNG does not allow (`Png.LegalIff`).

## Model

| member | source | states |
|---|---|---|
| JsonRoundTrip.LoadsOfRender | tools/acceptance/evidence.py:40-41 | for every value, parsing the printed text gives the value back with split surrogate pairs joined, and keys that thereby become equal merged, and nothing else changed (RFC 8259, sections 4 to 7) |
| JsonCanonical.SameValueIffSorted | tools/acceptance/evidence.py:40-41 | two values are equal as Python values exactly when their sorted forms are identical |
| JsonCanonical.CanonicalRoundTrip | tools/acceptance/evidence.py:40-41 | reading canonical bytes back gives the value with sorted keys, if and only if no string in it holds a split surrogate pair |
| KeyOrder.BeforeIff | tools/acceptance/evidence.py:40-41 | the order in which keys are sorted, written out: one string comes before another exactly when they agree up to some position and there it ends or holds the lower code point |
| KeyOrder.SortedAscends | tools/acceptance/evidence.py:40-41 | in the sorted form of every value, each key of an object comes before all later ones in that order, at every depth |
| KeyOrder.KeysAscend | tools/acceptance/evidence.py:40-41 | what is read back from the canonical text of any value without split pairs has ascending keys |
| CanonicalText.EscapeIs | tools/acceptance/evidence.py:40-41 | how each character is written: printable ASCII as itself but for the quote and the backslash, seven short escapes, and else four lower-case hexadecimal digits, twice for a character beyond the basic plane |
| CanonicalText.DecimalIs | tools/acceptance/evidence.py:40-41 | an integer has a minus sign exactly when it is negative, and no leading zero |
| CanonicalText.EscapesRead | tools/acceptance/ledger.py:42-56 | short escapes are read back, an escaped slash is a slash, and hexadecimal digits may have either case |
| CanonicalText.CharRead | tools/acceptance/ledger.py:42-56 | any other character of a string is read as itself, and a control character raises |
| CanonicalText.SpaceInFront | tools/acceptance/ledger.py:42-56 | white space in front of a value does not matter |
| CanonicalText.RenderCompact | tools/acceptance/evidence.py:40-41 | where no string holds a space, the text holds no white space: the separators have none |
| JsonCanonical.CanonicalIffSameValue | tools/acceptance/evidence.py:40-45 | for values without split surrogate pairs, canonical bytes are equal if and only if the values are: key order does not show, any other difference does |
| JsonCanonical.StringsShareBytesIff | tools/acceptance/evidence.py:40-41 | any two strings share their canonical bytes if and only if they are equal once their split pairs are joined |
| JsonBytes.ValuesShareBytesIff | tools/acceptance/evidence.py:40-41 | any two values share their canonical bytes if and only if their sorted forms are identical, field by field, once their split pairs are joined |
| JsonCanonical.SplitPairsCollide | tools/acceptance/evidence.py:40-41 | every string with a split pair differs from its joined form and has the same canonical bytes |
| JsonParsed.LoadsIsPlain | tools/acceptance/ledger.py:42-56 | whatever a ledger line parses to has distinct keys and no split surrogate pair, so the condition above always holds of rows read back |
| Ledgers.Ledger.Entries | tools/acceptance/ledger.py:42-56 | the loop over the lines reads exactly the rows of the file, skips blank lines, and raises on the first line that is not JSON |
| Ledgers.Ledger.Head | tools/acceptance/ledger.py:58-60 | the last row's digest, GENESIS for no rows, and the KeyError and TypeError cases |
| Ledgers.Ledger.Append | tools/acceptance/ledger.py:62-80 | adds exactly one line, the printed entry with its number, predecessor and digest, and writes nothing when reading raises |
| Ledgers.Ledger.Verify | tools/acceptance/ledger.py:82-98 | reports every row whose digest or link is wrong, in order, with the link carried on from what the row records |
| Ledgers.Ledger.Find | tools/acceptance/ledger.py:100-105 | the rows that match every criterion, in order, an absent key reading as None; a row that is not an object raises |
| LedgerFile.EntryIsOneLine | tools/acceptance/ledger.py:69-76 | a printed entry has no line break in it and nothing to strip |
| LedgerFile.FileRoundTrip | tools/acceptance/ledger.py:42-56 | after an append to any line-terminated ledger the entries are the old ones and then the new one, if and only if the entry holds no split surrogate pair; the file stays line-terminated |
| LedgerFile.EntriesArePlain | tools/acceptance/ledger.py:42-56 | every row read from any ledger file meets that condition |
| Entries.LinesAre | tools/acceptance/ledger.py:42-56 | a line break ends a line and starts the next; a text without one is one line |
| Entries.LineReads | tools/acceptance/ledger.py:42-56 | a line of white space adds no row, any other adds what its stripped text parses to or makes reading raise |
| Entries.HeadIs | tools/acceptance/ledger.py:58-60 | the head is GENESIS, the last row's digest, or the error of a last row that is no object or has no digest |
| Entries.AppendedRow | tools/acceptance/ledger.py:62-80 | the row read back behind an append over m rows has the number m + 1, the head as its predecessor, the time, the digest of its other fields, and under every other key what the payload has |
| Entries.ReportGrows | tools/acceptance/ledger.py:82-98 | the report of one more row: a mismatch exactly when its digest is not that of its other fields, then a broken link exactly when it does not name the digest recorded in the row before, GENESIS standing for a recorded value that is false |
| Entries.QueryGrows | tools/acceptance/ledger.py:100-105 | one more row is found, behind the others, exactly when it has every value asked for, an absent key counting as null; a row that is no object makes the query raise |
| JsonPrefix.CutObjectIsNoValue | tools/acceptance/ledger.py:42-56 | no proper beginning of a printed entry reads as a JSON value |
| TornLines.TornWrite | tools/acceptance/ledger.py:72-79 | after a write that stored only the first characters of its line the ledger reads as before if it stored none, as if all were stored if only the line break is missing, and otherwise not at all |
| TornLines.AppendAfterMissingBreak | tools/acceptance/ledger.py:62-80 | when only the line break is missing, the next append puts its entry on the same line and leaves a ledger that cannot be read |
| Chain.CleanIff | tools/acceptance/ledger.py:82-98 | `verify` reports nothing exactly when every row carries its own digest and the digest of the row before it |
| Chain.CleanPrefix | tools/acceptance/ledger.py:13-17 | every prefix of a clean ledger is clean, so truncation is invisible |
| Chain.LinkIsDigest | tools/acceptance/ledger.py:58-60 | the head of a clean ledger is the digest of its last row's body |
| Chain.LastRowsAgree | tools/acceptance/ledger.py:8-17 | the step back: equal heads mean the same last row and equal heads before it |
| Chain.HeadFixesHistory | tools/acceptance/ledger.py:8-17 | two clean ledgers with one head hold the same rows in the same order, whatever their lengths, unless these rows collide |
| Chain.HeadsDiffer | tools/acceptance/ledger.py:8-17 | no two prefixes of a clean ledger share a head |
| Chain.FilesWithOneHead | tools/acceptance/ledger.py:42-60 | the same for two ledger files as they stand on disk |
| Chain.AppendKeepsClean | tools/acceptance/ledger.py:62-80 | an append keeps a clean ledger clean if and only if the payload does not hold `entry_sha256`, or the digest collides on the entry with and without it |
| Appends.InterleavedAppends | tools/acceptance/ledger.py:62-80 | over every interleaving of any number of appends, each a read and a later write: earlier rows stay, one row is added for each write, and `verify` is empty exactly when no write fell between any append's read and its write |
| Appends.BrokenStaysBroken | tools/acceptance/ledger.py:82-98 | rows are never rewritten, and a ledger that stopped verifying never verifies again |
| Appends.LateRow | tools/acceptance/ledger.py:62-72 | a row that was built over the first m rows chains if and only if those are still all the rows |
| Appends.AppendAlone | tools/acceptance/ledger.py:62-80 | an append that nothing interrupts leaves what `append` leaves, and one that raises takes no step |
| Appends.AppendsOverlap | tools/acceptance/ledger.py:62-80 | two appends can both read before either writes, and both lines are then built over the same rows |
| Receipts.Receipt.Write | tools/acceptance/ledger.py:108-139 | stamps the caller's receipt in place and writes a copy, with the digest of everything but the digest; when the file cannot be stored it raises with the caller's receipt stamped and the file as it was |
| Receipts.VerifiesIff | tools/acceptance/ledger.py:142-147 | a receipt verifies if and only if it holds the digest of everything else in it |
| Receipts.WrittenReceiptVerifies | tools/acceptance/ledger.py:108-147 | the stamped and the written receipt verify, are the same value, and stamping again gives the same digest |
| Receipts.AnyChangeIsReported | tools/acceptance/ledger.py:142-147 | whatever carries a verified receipt's digest verifies if and only if it agrees with it in every other field, unless the two bodies collide |
| Acceptance.Harness.Met | tools/acceptance/vm_acceptance.py:332-360 | the guards over required runs stop at the first that finds no row |
| Acceptance.Harness.Record | tools/acceptance/vm_acceptance.py:299-420 | the guard chain in its order, with the code of the first guard that refuses; the manifest changes only when all of them pass, and then at the case's own entry |
| Acceptance.Harness.Execute | tools/acceptance/vm_acceptance.py:182-296 | the ledger row comes before any record, and each way out has its exit code, which `ExitCodes.ExitOfRun` gives by what the run did |
| Acceptance.Harness.Run | tools/acceptance/vm_acceptance.py:118-137 | an unknown case or a disagreeing sidecar changes nothing |
| AcceptanceProofs.VerdictMeans | tools/acceptance/vm_acceptance.py:106-213 | PASS and exit code 0 mean finished, at least one check and none failed; FAIL means some check failed, however the run ended; of the others a crash is ERROR and the rest BLOCKED, under these names |
| AcceptanceProofs.RowNamesRun | tools/acceptance/vm_acceptance.py:259-277 | the row that is read back names the run's case, verdict, firmware and artifact |
| AcceptanceProofs.PayloadHolds | tools/acceptance/vm_acceptance.py:259-277 | what a run hands to the ledger under each of its ten keys |
| AcceptanceProofs.FoundIffSupported | tools/acceptance/vm_acceptance.py:332-360 | a ledger query finds a row exactly when some earlier run passed that case on that artifact under that firmware |
| AcceptanceProofs.RecordedIff | tools/acceptance/vm_acceptance.py:299-420 | a run is recorded if and only if it passed, its case has a manifest case and no gap, everything the case requires passed on the same artifact, there is evidence and the recorder accepts |
| AcceptanceProofs.RunStepKeepsInv | tools/acceptance/vm_acceptance.py:118-296 | every run, with any outcome, keeps the ledger intact and every record justified |
| AcceptanceProofs.RecordsAreJustified | tools/acceptance/vm_acceptance.py:299-311 | after any sequence of runs from an empty ledger: it verifies, its rows are the runs that reached it, and every record has a passing run with evidence and passing runs of all it requires, on one artifact |
| AcceptanceProofs.OneMoreRun | tools/acceptance/vm_acceptance.py:118-420 | after any sequence of runs, one more run changes the manifest only at its own entry, and does so if and only if the image is identified, recording was asked for and everything in `RecordedIff` holds |
| ExitCodes.ExitOfRun | tools/acceptance/vm_acceptance.py:118-420 | the exit code of every run after any runs: 2 for an unknown case or a disagreeing sidecar, an exception when it breaks off before its row; else 1 exactly when a check failed; 3 exactly when nothing was proved, or when a record was asked for, could be had, and something required has not passed; 2 exactly when the case crashed, or the record lacks evidence or is refused; 0 exactly when the run passed and was recorded or had nothing to record |
| ExitCodes.ExitOnLedger | tools/acceptance/vm_acceptance.py:299-420 | the same on any readable ledger; one that does not verify withholds the record with 2 once everything required has passed |
| ExitCodes.ExitAtOnce | tools/acceptance/vm_acceptance.py:118-137 | a run that does not get to its row, an unreadable ledger included, changes nothing |
| ExitCodes.InstallRecordedIff | tools/acceptance/cases.py:2248-2259 | one more run of the two-firmware case is recorded if and only if it is eligible and a BIOS and a UEFI install passed before on that artifact |
| ExitCodes.RecoveryRecordedIff | tools/acceptance/cases.py:2277-2315 | one more run of the project case is recorded if and only if it is eligible and both rollback cases passed before on that artifact |
| AcceptanceProofs.InstallNeedsBothFirmwares | tools/acceptance/cases.py:2234-2259 | INSTALL-01 is recorded only from the two-firmware case, with a BIOS and a UEFI install passed on that artifact |
| AcceptanceProofs.RecoveryNeedsBothHalves | tools/acceptance/cases.py:2277-2315 | RECOVERY-01 is recorded only from the project case, with both rollback cases passed on that artifact |
| AcceptanceProofs.NothingElseIsRecorded | tools/acceptance/cases.py:2225-2317 | nothing else is ever recorded; a case with a manifest gap, UPGRADE-01 among them, never is |
| AcceptanceProofs.OverlapStopsRecording | tools/acceptance/vm_acceptance.py:361-368 | once a write fell between some append's read and its write, no run is recorded any more, whatever appends follow |
| Concurrent.RecordsAreJustified | tools/acceptance/vm_acceptance.py:259-420 | over every interleaving of any number of harness runs on one ledger, each reading it for its entry, writing its line and going through the guards one read at a time: the rows are the runs that wrote them, and every record has a passing run with evidence and passing runs of all it requires, on one artifact, even if the chain broke meanwhile |
| Concurrent.AloneIsDecide | tools/acceptance/vm_acceptance.py:299-420 | guard steps that nothing interrupts end in a record if and only if the guard chain in one go records the run |
| Concurrent.AloneIsRun | tools/acceptance/vm_acceptance.py:118-277 | a read and a write that nothing interrupts leave the ledger that the run leaves, and a run that does not get to its row takes no step |
| Concurrent.AloneRecords | tools/acceptance/vm_acceptance.py:118-420 | and its guard steps, with nothing in between, leave the manifest that the run leaves |
| Stamp.Stamper.ComputePlan | tools/stamp_version.py:191-248 | both passes over the sites, with every refusal, and no write; `Refusals.RefusedIff` says when it refuses |
| Stamp.Stamper.Replace | tools/stamp_version.py:255-295 | a replacement returns, or raises with the old bytes in place, with the new ones and the mark that says so, or with the new ones and no mark |
| Stamp.Stamper.Write | tools/stamp_version.py:303-340 | files in plan order, equal ones skipped; the rollback set includes a file whose failure carries the mark; an exception between a return and its note, or between two files, ends the run with no rollback |
| Stamp.Stamper.Restore | tools/stamp_version.py:343-353 | last first, going on after an `OSError` only |
| Stamp.Stamper.Stamp | tools/stamp_version.py:298-340 | the whole run, from the plan to the last effect, and the report of what is outstanding raising behind it |
| Refusals.VersionIff | tools/stamp_version.py:193-194 | a version is accepted if and only if it is three non-empty runs of ASCII digits with single dots between them |
| Refusals.RefusedIff | tools/stamp_version.py:191-248 | a stamp is refused if and only if the version is no such text, some site's file is missing or not UTF-8, its pattern has no group or does not match exactly once in the text as it then stands, or some site does not read the version back at the end |
| Refusals.CompleteText | tools/stamp_version.py:232-238 | a completed stamp leaves every file with the captures of its sites replaced, in turn, and every other character as it was |
| Refusals.CompleteReport | tools/stamp_version.py:303-340 | it reports a file as written exactly when its text changed, and else as unchanged |
| StampProofs.OutcomesMean | tools/stamp_version.py:255-295 | which outcomes of a replacement leave the new bytes in place, and which let a rollback go on |
| StampProofs.RestoreInterrupted | tools/stamp_version.py:343-353 | a rollback is cut short exactly when one of its replacements raises something that is not an `OSError` |
| StampProofs.AllOrNone | tools/stamp_version.py:298-353 | for every schedule of failures, a stamp that rolled back leaves every file it does not name at its original bytes, save one whose replacement was cut off between the rename and the mark; with no name the tree is exactly as it was if and only if that did not happen |
| StampProofs.RestoredIffUndone | tools/stamp_version.py:298-353 | after a stamp that did not complete, in whatever way, the tree is the one it started from if and only if a replacement failed and said whether its rename happened, and every noted file's restore is reached and does not fail before its rename, or an exception came from outside the replacements before the first changed file was replaced |
| StampProofs.UnflaggedInterrupt | tools/stamp_version.py:278-281 | one file, and an interrupt between the rename and the mark: nothing is named, and the file holds the new version |
| StampProofs.OutstandingRaises | tools/stamp_version.py:338-340 | one file, replaced without failure, and an exception from the report of what is outstanding: the stamp raises, nothing is rolled back, and the file holds the new version |
| StampProofs.RestoreExactly | tools/stamp_version.py:343-353 | for every written file, whether or not the rollback is cut short: it is reported if and only if its restore was reached and raised an `OSError`, and holds its original bytes if and only if that restore was reached and did not fail before its rename |
| StampProofs.InterruptLeavesStamped | tools/stamp_version.py:343-353 | a rollback cut short at any of its restores leaves every file still to be restored stamped, and reports nothing |
| StampProofs.StampLeaves | tools/stamp_version.py:298-340 | what every way out leaves of every file, an exception between the replacements or behind the last included; files without a site are never touched |
| StampProofs.CheckVersion | tools/drift_gate.py:198-224 | the gate's findings are exactly the sites whose first match does not read the wanted version |
| StampProofs.StampSatisfiesGate | tools/stamp_version.py:237-241 | after a completed stamp the gate accepts every site of a file without carriage returns, with several sites in one file |
| StampProofs.StableStampsNothing | tools/stamp_version.py:307-312 | a tree whose sites all read the version is left alone under any schedule, and the stamp completes unless an exception comes from outside the replacements |
| StampProofs.StampIsIdempotent | tools/stamp_version.py:307-312 | stamping the same version again changes nothing and, but for such an exception, completes with no file written |
| Fold.CollectEnv | tools/drift_gate.py:1130-1162 | the loop with its early exit is four passes that only ever append to buckets |
| FoldProofs.FoldSound | tools/drift_gate.py:1078-1127 | over names, constants, `+`, f-strings whose fields neither quote, pad nor cut, joins of displays and `os.path.join`: when every bound name holds its collected value, whatever an expression evaluates to is the folded string; what the joins are is stated by themselves in the next rows |
| Joins.ConcatIs | tools/drift_gate.py:1099-1107 | in a concatenation every part stands where those before it end, and nothing else is there |
| Joins.JoinWithIs | tools/drift_gate.py:1061-1064 | a join is its parts with the separator behind each but the last |
| Joins.PathJoinedIs | tools/drift_gate.py:1059-1060 | `os.path.join` of any parts: the last one that starts with a slash discards all before it, and from there the parts follow each other with one slash behind each that is neither the last nor empty nor ends with one |
| Joins.SingleSlashes | tools/drift_gate.py:1059-1060 | plain parts are separated by single slashes |
| FoldShape.FoldsIff | tools/drift_gate.py:1078-1127 | the folder answers if and only if every operand is of a form it looks into, every name has one value, and no operand lies deeper than twelve steps |
| FoldProofs.SettledIsSound | tools/drift_gate.py:1130-1162 | an environment that one more look contradicts nowhere is right about every expression in every run, in any order of assignments |
| FoldProofs.SoundIffSettled | tools/drift_gate.py:1130-1162 | when every assignment folds, or has an operand that the folder does not look into among collected names, the environment is right in all runs if and only if it is settled: every assignment to a name of a single value folds to that value |
| FoldProofs.StableEnvIsSettled | tools/drift_gate.py:1139-1161 | the loop's own exit gives it: an environment a further pass does not change, with single values and every binding folding, is settled |
| FoldProofs.EnvReached | tools/drift_gate.py:1130-1162 | every single value collected is one that some run really gives the name |
| FoldProofs.FourPassesCanMislead | tools/drift_gate.py:1139-1139 | six assignments for which four passes are too few |
| FoldProofs.UndecidedBindingMisleads | tools/drift_gate.py:1150-1152 | a name bound to any string and to any value the folder does not look into folds to that string, and some run gives it something else |
| FoldProofs.NothingLost | tools/drift_gate.py:1092-1095 | in a stable environment of single values in which every binding folds, every value that any run gives a name is the collected one |
| FoldProofs.DecliningLosesAValue | tools/drift_gate.py:1092-1095 | with two strings for a name and a third binding that appends to it, some run gives the third name a string that no binding folds to |
| FoldProofs.FieldFoldsRightIff | tools/drift_gate.py:1098-1106 | a field whose precision cuts nothing folds to what Python formats if and only if it does not quote (`!r`, `!a`) and the string fills the width; one that cuts and does not quote, if and only if the width is the string's length and either the string is all fill or the part cut off is and the padding goes to its right |
| Formats.QuotedIs | tools/drift_gate.py:1098-1106 | what `!r` makes of a string of printable ASCII without backslashes: the string in single quotes, or in double ones when it holds a single quote and no double one |
| FoldProofs.FieldFoldsRightAlways | tools/drift_gate.py:1098-1106 | a field folds right for every string if and only if it has no conversion but `!s`, no width and no precision |
| FoldProofs.JoinOfOneFoldsRightIff | tools/drift_gate.py:1042-1046 | a join of a single string folds to that string, and Python gives that string if and only if it has at most one character or the separator is empty |
| Walk.ImportsModule | tools/drift_gate.py:1378-1401 | true exactly when a yielded statement passes the test, which looks at dotted names and not at levels |
| Walk.ExecutableIffOpen | tools/drift_gate.py:1007-1026 | some run executes a statement if and only if it stands in an open place: no literal test rules its branch out, and no statement before it in a list around it always diverts control (`return`, `raise`, `break`, `continue`, endless loops and `try` included) |
| Walk.ExecutedIsWalked | tools/drift_gate.py:1007-1026 | whatever any run executes, the walk yields |
| Walk.MissedIff | tools/drift_gate.py:1378-1401 | a module that some run imports is missed if and only if every statement that can be executed and imports it does so under another name, as a submodule's import does, and nothing wrongly counted makes up for it |
| Walk.FalseAlarmIff | tools/drift_gate.py:1378-1401 | a module that is found is imported by no run if and only if every statement counted for it is dead or relative, and none that can be executed imports it in another way |
| Walk.LiveTree | tools/drift_gate.py:1378-1401 | both in a tree without dead statements, where only relative imports are counted wrongly |
| Walk.DirectIsFound | tools/drift_gate.py:1378-1401 | an absolute import of the module by its own name is never missed if some run executes it |
| Walk.RelativeImportCounts | tools/drift_gate.py:1398-1399 | in every file whose package does not belong to the module, `from .name import x` makes it found although no run imports it |
| Walk.AboveIs | tools/drift_gate.py:1398-1399 | what the level of a relative import stands for: each one above the first takes off the last part of the file's package, and there is nothing above a single part |
| Walk.SubmoduleImportMissed | tools/drift_gate.py:1395-1397 | `import name.sub` imports `name` in some run, and is missed |
| Walk.RaiseHidesImport | tools/drift_gate.py:1378-1401 | an import that stands after a `raise` is found, and no run performs it |
| Agent.Channel.Receive | tools/acceptance/vm.py:132-135 | a `recv` moves bytes into the buffer and loses none |
| Agent.Channel.Sync | tools/acceptance/vm.py:137-178 | the outcome and the bytes left depend on the pending bytes only, and each iteration consumes a chunk or a line |
| Agent.Channel.Rpc | tools/acceptance/vm.py:108-135 | the same for a request; it ends with an answer, an error or a closed connection |
| Agent.Channel.SyncThenRpc | tools/acceptance/vm.py:209-218 | a synchronised call is a function of the byte stream |
| Agent.CutsDoNotMatter | tools/acceptance/vm.py:108-178 | two connections that deliver the same bytes in different chunks end alike with the same bytes left |
| Agent.ConsumeIsExact | tools/acceptance/vm.py:119-135 | exactly the lines before the first deciding one are skipped, and what is left is every byte behind that line |
| Agent.LinesRejoin | tools/acceptance/vm.py:119-124 | the lines and the unfinished tail are the stream |
| Agent.StaleLinesAreDiscarded | tools/acceptance/vm.py:142-149 | everything up to and including the token's line is discarded, and the call answers from what follows |
| Agent.ResyncEnds | tools/acceptance/vm.py:156-178 | a resynchronisation passes over empty lines, lines that are no JSON and objects with another result; the first other line is the token's answer, or crashes it |
| Agent.RequestEnds | tools/acceptance/vm.py:108-135 | a request passes over empty lines and events; the first other line is its answer or its error, or crashes it |
| Agent.CallAnswers | tools/acceptance/vm.py:108-178 | a call whose stream holds such lines, the token's answer, events and then an object ends with that object, and leaves every byte behind it |
| Png.BuildRaw | tools/acceptance/vm.py:65-69 | the raw buffer grown row by row is each row behind a filter byte 0 |
| Png.ChunksRoundTrip | tools/acceptance/vm.py:71-77 | a stream of chunks parses to those chunks and to nothing else (RFC 2083, section 3.2) |
| Png.EncodedRoundTrip | tools/acceptance/vm.py:79-85 | for every size and exactly sized buffer: encoding succeeds if and only if the three length fields fit 32 bits, the raw buffer has height * (3 * width + 1) bytes, and decoding gives the image back |
| Png.PngRoundTrip | tools/acceptance/vm.py:44-86 | every framebuffer file the encoder accepts comes back with its width, height and every pixel |
| Png.FramebufferRoundTrip | tools/acceptance/vm.py:44-86 | a file written as `P6`, width, height, maximum and pixels, with any white space, is encoded if and only if the maximum is 255, all pixels are there and the length fields hold; decoding gives that width, that height and those pixels |
| Png.NamesInTheFile | tools/acceptance/vm.py:71-85 | the signature and the chunk names are the ASCII ones of RFC 2083, sections 3.1 and 4.1 |
| Png.LegalIff | tools/acceptance/vm.py:71-85 | the file written has sizes that PNG allows if and only if both dimensions are between 1 and 2^31 - 1 and the compressed data is no longer than that (RFC 2083, sections 3.2 and 4.1.1) |
| Publish.PublicationPlan | tools/publish_release_4_0_0.py:84-115 | the plan list by list, with the refusals in their order; its order is that of `PlanOrder.PlanIsOrdered` |
| Publish.Bucket.Compare | tools/publish_release_4_0_0.py:149-168 | the whole plan is compared before any upload; the first collision, or head request that fails for another reason than a missing object, ends the run, otherwise the matching keys are known |
| Publish.Bucket.UploadPlan | tools/publish_release_4_0_0.py:169-188 | every state the uploads go through, each upload ending in any way |
| Publish.Bucket.Publish | tools/publish_release_4_0_0.py:164-210 | the whole run, including the read-back of the image and the pointer |
| PublishProofs.SortItemsSorts | tools/publish_release_4_0_0.py:105-109 | sorting keeps every item, and puts them in an order that `PlanOrder.PlanIsOrdered` states by the keys |
| PlanOrder.PlanIsOrdered | tools/publish_release_4_0_0.py:104-112 | an accepted plan ends with all of the metadata: the indices by ascending key, then Release.gpg, then Release, then InRelease |
| PlanOrder.IndicesComeFirst | tools/publish_release_4_0_0.py:104-188 | in any state of any run in which Release.gpg, Release or InRelease has changed, every index is present, and every one of these three that belongs before it |
| PlanOrder.AcceptedIff | tools/publish_release_4_0_0.py:84-115 | a plan is accepted if and only if image and evidence bundle are the accepted ones, the pool is not empty, the metadata has the signed index and no key is used twice |
| PublishProofs.MatchesIff | tools/publish_release_4_0_0.py:149-159 | an object counts as present by its length and by its digest metadata, or by its bytes if it has none |
| PublishProofs.UploadLeaves | tools/publish_release_4_0_0.py:177-184 | an upload that failed before its effect leaves the bucket, any other the item under its key with its digest as metadata, or what was stored instead |
| PublishProofs.InReleaseLast | tools/publish_release_4_0_0.py:105-111 | the check on the last item holds if and only if the metadata has the signed index at all |
| PublishProofs.PlanShape | tools/publish_release_4_0_0.py:84-115 | an accepted plan names each key once, starts with the accepted image, ends with the signed index and holds every file |
| PublishProofs.CollisionMeansNoUpload | tools/publish_release_4_0_0.py:160-168 | the run stops before its first upload if and only if some item of the plan collides |
| PublishProofs.ImmutableObjectsStay | tools/publish_release_4_0_0.py:149-162 | at every state of every run, a changed key belongs to the pointer or a mutable item, or held nothing before |
| PublishProofs.UploadsAreInOrder | tools/publish_release_4_0_0.py:169-188 | in any state where an object has changed, every object before it in the plan is present |
| PublishProofs.SignedIndexIsLast | tools/publish_release_4_0_0.py:105-109 | in any state where InRelease has changed, every other object of the plan is present |
| PublishProofs.PointerIsLast | tools/publish_release_4_0_0.py:189-204 | with any accepted plan, in any state where the pointer has changed, every object is present, the stored image bytes hash to the accepted digest, and no state follows |
| PublishProofs.SecondRunIsFixed | tools/publish_release_4_0_0.py:164-204 | a second run uploads no object and rewrites the pointer; the bucket is a fixed point if and only if the pointer was stored as sent |
| PublishProofs.BytesIffMetadataHonest | tools/publish_release_4_0_0.py:156-159 | of the objects that count as present, the bytes are the planned ones if and only if no stored digest metadata is wrong |
| Recovery.CompletesIff | tools/publish_release_4_0_0.py:149-204 | a run whose uploads all store completes if and only if no immutable key of the plan holds an object that does not match, and an image that matches has the right bytes |
| Recovery.RecoversIff | tools/publish_release_4_0_0.py:149-204 | from any state of a run whose uploads may fail, before or after taking effect, a run whose uploads all store completes if and only if it would have completed at the start |
| Recovery.WronglyStoredStops | tools/publish_release_4_0_0.py:160-162 | once an upload has stored something that does not match under an immutable key, every run stops at the comparison and changes nothing |
| Control.ParseControl | tools/ship_list_check.py:123-144 | the loop with its open stanza and field builds the stanzas of the file |
| Control.DependsField | tools/drift_gate.py:1452-1474 | the three loops collect the pieces of one package's Depends |
| Control.CutAtColon | tools/ship_list_check.py:139-141 | a line is cut at its first colon, and later colons belong to the value |
| ControlText.WrittenIsParsed | tools/ship_list_check.py:123-144 | every file written as stanzas of fields, with continuation lines, is read as those stanzas, each value with single spaces between its lines |
| ControlText.LinesSkipped | tools/ship_list_check.py:128-134 | a comment is a line that starts with `#`, and a blank line one that holds white space only |
| ControlProofs.ReadersAgree | tools/drift_gate.py:1452-1474 | on every well-formed control file, for every package, both readers give the same words in the same order, and none when no stanza is the package's; comments and folded lines included (Debian Policy, section 5.1) |
| ControlProofs.ReadersDiffer | tools/drift_gate.py:1452-1474 | on every file that is well-formed except for stanzas without a package name among the binary ones: the drift gate's words are those of the package's Depends and behind them those of the Depends it collects from such stanzas, so the readers agree if and only if these hold no word |
| ControlProofs.OneStanzaEach | tools/ship_list_check.py:187-192 | on such a file too no package is declared by two stanzas |
| ControlProofs.StrayStanzaMisleads | tools/drift_gate.py:1459-1473 | the smallest file on which they differ: a stanza without a package name, after the package's own, lends it its Depends in one reader only |
| Closure.NamesInMeans | tools/ship_list_check.py:159-167 | a field names a package if and only if it is the first word of some alternative of some clause |
| Closure.CollectTargets | tools/ship_list_check.py:466-474 | Depends and Pre-Depends, and Recommends unless only strong edges count |
| Closure.EdgeIff | tools/ship_list_check.py:459-479 | two local packages are joined if and only if Depends, Pre-Depends or, unless only strong edges count, Recommends of the first names the second |
| Closure.ClosureOf | tools/ship_list_check.py:459-479 | terminates on every graph and returns exactly the local packages reachable by one or more edges |
| Closure.StrongIsSoft | tools/ship_list_check.py:459-479 | what dependencies reach, dependencies and recommendations reach |
| Closure.CheckPillarClosure | tools/ship_list_check.py:495-520 | holds if and only if the desktop is declared, every pillar is reachable by dependencies and every local package an image list names is reachable; otherwise it names exactly the packages at fault |
| ShipLists.Shipment.DeliverMatch | tools/ship_list_check.py:272-282 | a file goes to its destination under its name; a directory delivers every tracked file beneath it |
| ShipLists.Shipment.Ship | tools/ship_list_check.py:257-283 | the two tables are those of all deliveries in order, and the run raises if and only if some glob matches nothing |
| ShipLists.TargetIs | tools/ship_list_check.py:273-282 | an installed path is the destination without the slashes around it, one slash, and the path below it |
| ShipLists.DeliveriesMean | tools/ship_list_check.py:257-283 | the deliveries are exactly these: a matched file under its own name, and of a matched directory every tracked file in it under the directory's name and the path below |
| ShipLists.PayloadMeans | tools/ship_list_check.py:286-300 | a payload file is a tracked one in a top-level tree that some install line ships out of |
| ShipLists.DeliveredIffNoCollision | tools/ship_list_check.py:263-283 | every delivered file is installed where its line says if and only if no two lines put different files on one destination |
| ShipLists.Unshipped | tools/ship_list_check.py:302-321 | the findings are exactly the tracked files under a payload root that nothing ships and nothing excuses |
| ShipLists.CheckPackage | tools/ship_list_check.py:329-355 | a source package passes if and only if every glob matches and every payload file is delivered or excused, or it has no list and nothing to ship |
| ShipLists.BuildShipLists | tools/ship_list_check.py:324-360 | the lists are built if and only if every source package passes |
| ShipLists.Disagreements | tools/ship_list_check.py:553-562 | the undeclared and the absent files of a built package are exactly those, with gzipped docs and debhelper's files allowed |
| ShipLists.CheckBuiltPayload | tools/ship_list_check.py:537-566 | passes if and only if every built package that has a ship list agrees with it |
| ShipLists.PayloadIsBuilt | tools/ship_list_check.py:324-360 | from the whole source tree to the artifacts: when the lists are built, every built package agrees with them and no install lines collide, every payload file of every source that is not excused is installed by some binary package and is in that package, as itself or gzipped, if it was built |
| ShipLists.CollisionHidesAFile | tools/ship_list_check.py:263-283 | every package whose two install lines put two files of one name into one directory passes the reverse manifest, and no ship list installs the first file |
| Snapshots.Snapshot.Reserve | tools/package_release_evidence_4_0_0.py:130-135 | refuses exactly an unsafe name, a duplicate, or a file beyond the file, total or count bound |
| Snapshots.Snapshot.AddBytes | tools/package_release_evidence_4_0_0.py:137-143 | the new entries, total and staged files, with a write that raises leaving no entry |
| Snapshots.Snapshot.AddFile | tools/package_release_evidence_4_0_0.py:145-174 | the same for a file that may change, grow, shrink or fail while it is copied |
| Snapshots.SnapshotsAreSound | tools/package_release_evidence_4_0_0.py:124-174 | after any sequence of calls, accepted or refused: the total is the sum of sizes, the bounds hold, names are safe and distinct, every entry has the size and digest of its staged file, and earlier entries and files are as they were |
| Snapshots.AcceptedFileIsWhole | tools/package_release_evidence_4_0_0.py:156-174 | an accepted file is staged as exactly the bytes read, as many as its size said, with the approved digest |
| Snapshots.FileAcceptedIff | tools/package_release_evidence_4_0_0.py:145-174 | a file is accepted if and only if its name is safe and new, there is room, it holds still, nothing raises up to its end, as many bytes arrive as its size says, and no digest was given or it is 64 hexadecimal digits that are theirs |
| Snapshots.DocumentAcceptedIff | tools/package_release_evidence_4_0_0.py:137-143 | a document is accepted if and only if its name is safe and new, there is room and its write does not raise |
| Snapshots.NameAcceptedIff | tools/package_release_evidence_4_0_0.py:89-97 | a name is accepted, as it stands, if and only if it has at most 512 characters and is one or more segments joined by slashes, none empty, a dot or two, or holding a backslash or control character |
| Snapshots.NamesStayInside | tools/package_release_evidence_4_0_0.py:89-97 | an accepted name is its own normal form and leads strictly below the root, one level a segment, at every segment |
| Snapshots.NamesDoNotAlias | tools/package_release_evidence_4_0_0.py:89-97 | two accepted names lead to one place if and only if they are equal |

## Left out

- JSON numbers: a float is kept and compared as its text, which is what Python prints for the floats it printed itself; a text like `1.50` that Python would print differently, `1.0 == 1`, `0.0 == -0.0`, NaN and Infinity are not modelled. Nor are Python's limits on integer digits and nesting depth, and `True == 1`.
- JSON texts that the printer never writes: the parser is written out and proved to undo the printer and to reject cut-off objects, and its reading of single characters is stated; which other texts it accepts is not characterised.
- The receipt file: modelled as the value written; its indented text and temporary file are not.
- Ledger file reading: text-mode newline translation is not modelled; it only turns one kind of line break into another, and blank lines are skipped.
- StampProofs.StampSatisfiesGate: only for files without carriage returns, because the gate reads translated newlines and an anchor is any function of the text; with a carriage return the gate may read other text than the stamper wrote.
- ControlProofs.ReadersDiffer: for files whose stanzas are written with `Package` first and each field flush left once; files outside that are not compared.
- FoldProofs.FoldSound: not for `Path(...)`, `str(...)`, `/`, `%`, `.format` and `normpath`, whose Python meaning is not a plain join; expressions of these kinds are treated as undecided. A format specification computed at run time is not modelled, and which characters outside ASCII Unicode calls printable is a parameter.
- FoldProofs.FieldFoldsRightIff: of a field that both quotes and cuts it gives the length the result must have, not when the quoted and cut text is the string again.
- FoldProofs.SoundIffSettled: not for a binding that does not fold because of a name without a value or with several, the depth limit or something undecided inside an f-string; whether some run gives it another value depends on the names it is made of.
- Walk.MissedIff: imports are the two statements; `importlib`, `__import__`, the names a star import brings and what the imported modules import themselves are not modelled. Which listed names are submodules is a parameter.
- Walk.ExecutedIsWalked: expressions inside statements and tests are not statements and are left out of the walk. A test that is not a literal goes either way, any statement may raise, a `with` may swallow an exception, a handler may or may not catch one, and a function may be called any number of times behind its definition; `match` and decorators are not modelled.
- Agent: sockets and the wall clock; a deadline is a bound on iterations. Decoding of a command's output and the polling of `guest-exec-status` come after the framing and add nothing to it.
- Png: compression and the checksum are functions with the one law that decompression undoes compression.
- Acceptance cases: what they do to a machine is any list of check results and any way of ending; the receipt's other fields and the recorder's own checks are not modelled beyond accepting or refusing. `_require_passing_run` repeats inside a case what the record guards ensure.
- EvidenceSet: its quality floors are the release recorder's, which is not part of this model; a refused transcript is the `aborts` outcome of a run.
- Stamper: file modes, ownership, `fsync` and temporary files; what `outstanding` reports, as opposed to its raising; loading the gate's sites from its source.
- Publisher: signature checks, media types, `object_for`'s file checks, and the pointer document; the pointer is any item whose key is not in the plan. Two publishers at once are not modelled.
- Ship lists: parsing of install lines and `not-installed`, and glob expansion, are inputs; private namespaces and cross-package paths are not modelled.
- Snapshot: symbolic-link and file-type checks are one input; the archive itself and the approval manifests are not modelled.
- `binary_stanzas`, `list_named_packages`, theme, palette and truth-file comparisons, screenshots and report printing: they compare literals or move data, and would add easy members only.
- The tools under `tools/attacks` and `tools/probes`: they exercise an engine whose source is elsewhere.
