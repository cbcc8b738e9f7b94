/** Every record in the manifest is justified by the ledger, over every sequence of runs. */
module AcceptanceProofs {
  import opened Outcomes
  import opened Json
  import opened JsonCanonical
  import opened JsonParsed
  import opened Dicts
  import opened Ledgers
  import opened LedgerFile
  import opened Chain
  import opened Acceptance
  import Appends

  // ---- verdicts -----------------------------------------------------------------

  /** The case finished, evaluated at least one check, and none failed. */
  predicate Passed(r: Run) {
    r.ending == Finished && |r.checks| > 0 && false !in r.checks
  }

  /** PASS is exactly that; a blocked or crashed run is FAIL exactly when a check failed. */
  lemma VerdictMeans(r: Run)
    ensures VerdictOf(r) == PASS <==> Passed(r)
    ensures VerdictOf(r) == FAIL <==> false in r.checks
    ensures ExitCode(VerdictOf(r)) == 0 <==> Passed(r)
    ensures VerdictOf(r) == ERROR <==> false !in r.checks && r.ending == RaisedOther
    ensures VerdictName(VerdictOf(r)) ==
      if false in r.checks then "FAIL" else if Passed(r) then "PASS"
      else if r.ending == RaisedOther then "ERROR" else "BLOCKED"
  {
  }

  // ---- ledger rows and the runs behind them -------------------------------------------

  /** The row names the run's case, verdict, firmware and artifact. */
  predicate RunRow(row: Value, r: Run) {
    && row.Obj?
    && Get(row.fields, K_CASE) == Some(Str(Py(r.caseName)))
    && Get(row.fields, K_VERDICT) == Some(Str(Py(VerdictName(VerdictOf(r)))))
    && Get(row.fields, K_FIRMWARE) == Some(Str(Py(r.firmware)))
    && Get(row.fields, K_ARTIFACT) == Some(Str(r.artifact))
  }

  /** The strings a run brings along hold no split surrogate pair. */
  predicate PlainRun(r: Run) {
    NoSplit(r.artifact) && NoSplit(r.runId) && NoSplit(r.harness) && NoSplit(r.receiptSha) && NoSplit(r.receiptPath)
    && NoSplit(r.now)
  }

  lemma RunKeysDiffer()
    ensures |K_RUN| == 6 && |K_CASE| == 4 && |K_MANIFEST| == 13 && |K_VERDICT| == 7 && |K_FIRMWARE| == 8
    ensures |K_ARTIFACT| == 15 && |K_HARNESS| == 14 && |K_RECEIPT| == 14 && |K_PATH| == 12 && |K_EVIDENCE| == 14
    ensures K_HARNESS != K_RECEIPT && K_RECEIPT != K_EVIDENCE && K_HARNESS != K_EVIDENCE
    ensures K_PATH != APPENDED && K_PATH != ENTRY_SHA && K_CASE != PREV
    ensures |SEQ| == 3 && |PREV| == 4 && |APPENDED| == 12 && |ENTRY_SHA| == 12
  {
    assert K_HARNESS[0] == 'h' as int && K_RECEIPT[0] == 'r' as int && K_EVIDENCE[0] == 'e' as int;
    assert K_PATH[0] == 'r' as int && APPENDED[0] == 'a' as int && ENTRY_SHA[0] == 'e' as int;
    assert K_CASE[0] == 'c' as int && PREV[0] == 'p' as int;
  }

  lemma PayloadUnique(c: Case, r: Run)
    ensures UniqueKeys(Payload(c, r))
  {
    RunKeysDiffer();
  }

  lemma HoldsAt(c: Case, r: Run, i: nat)
    requires i < |Payload(c, r)|
    ensures Get(Payload(c, r), Payload(c, r)[i].key) == Some(Payload(c, r)[i].value)
  {
    PayloadUnique(c, r);
    IndexOfUnique(Payload(c, r), i);
  }

  /** What a run hands to the ledger, key by key. */
  lemma PayloadHolds(c: Case, r: Run)
    ensures var p := Payload(c, r);
      && Get(p, Py("run_id")) == Some(Str(r.runId)) && Get(p, Py("case")) == Some(Str(Py(c.name)))
      && Get(p, Py("manifest_case")) ==
           Some(if c.manifestCase.Some? then Str(Py(c.manifestCase.value)) else Null)
      && Get(p, Py("verdict")) == Some(Str(Py(VerdictName(VerdictOf(r)))))
      && Get(p, Py("firmware")) == Some(Str(Py(r.firmware))) && Get(p, Py("artifact_sha256")) == Some(Str(r.artifact))
      && Get(p, Py("harness_digest")) == Some(Str(r.harness))
      && Get(p, Py("receipt_sha256")) == Some(Str(r.receiptSha))
      && Get(p, Py("receipt_path")) == Some(Str(r.receiptPath))
      && Get(p, Py("evidence_count")) == Some(Int(r.evidenceFiles))
  {
    HoldsAt(c, r, 0);
    HoldsAt(c, r, 1);
    HoldsAt(c, r, 2);
    HoldsAt(c, r, 3);
    HoldsAt(c, r, 4);
    HoldsAt(c, r, 5);
    HoldsAt(c, r, 6);
    HoldsAt(c, r, 7);
    HoldsAt(c, r, 8);
    HoldsAt(c, r, 9);
  }

  lemma PayloadPlain(c: Case, r: Run)
    requires PlainRun(r)
    ensures Plain(Obj(Payload(c, r)))
  {
    PayloadUnique(c, r);
    var p := Payload(c, r);
    forall i | 0 <= i < |p|
      ensures NoSplit(p[i].key) && Plain(p[i].value)
    {
      PayloadFieldPlain(c, r, i);
    }
  }

  lemma PayloadFieldPlain(c: Case, r: Run, i: nat)
    requires PlainRun(r) && i < |Payload(c, r)|
    ensures NoSplit(Payload(c, r)[i].key) && Plain(Payload(c, r)[i].value)
  {
    KeysArePlain();
    PyPlain(c.name);
    PyPlain(r.firmware);
    PyPlain(VerdictName(VerdictOf(r)));
    if c.manifestCase.Some? {
      PyPlain(c.manifestCase.value);
    }
  }

  lemma KeysArePlain()
    ensures NoSplit(K_RUN) && NoSplit(K_CASE) && NoSplit(K_MANIFEST) && NoSplit(K_VERDICT) && NoSplit(K_FIRMWARE)
    ensures NoSplit(K_ARTIFACT) && NoSplit(K_HARNESS) && NoSplit(K_RECEIPT) && NoSplit(K_PATH) && NoSplit(K_EVIDENCE)
  {
    PyPlain("run_id");
    PyPlain("case");
    PyPlain("manifest_case");
    PyPlain("verdict");
    PyPlain("firmware");
    PyPlain("artifact_sha256");
    PyPlain("harness_digest");
    PyPlain("receipt_sha256");
    PyPlain("receipt_path");
    PyPlain("evidence_count");
  }

  /** A payload field that the ledger does not overwrite reaches the row. */
  lemma FieldReachesRow(h: Hash, rows: seq<Value>, payload: seq<Field>, now: PyString, i: nat)
    requires Appends.HeadReadable(rows) && Plain(Obj(payload)) && !Has(payload, ENTRY_SHA) && NoSplit(now)
      && i < |payload|
    requires payload[i].key !in {SEQ, PREV, APPENDED, ENTRY_SHA}
    requires payload[i].value.Str?
    ensures EntryFor(h, payload, rows, now).Ok?
    ensures RowOf(EntryFor(h, payload, rows, now).value).Obj?
    ensures Get(RowOf(EntryFor(h, payload, rows, now).value).fields, payload[i].key) == Some(payload[i].value)
  {
    var k := payload[i].key;
    Appends.WrittenRow(h, rows, payload, now);
    var head := HeadOf(rows).value;
    IndexOfUnique(payload, i);
    var p1 := Put(payload, SEQ, Int(|rows| + 1));
    var p2 := Put(p1, PREV, head);
    var p3 := Put(p2, APPENDED, Str(now));
    GetPut(payload, SEQ, Int(|rows| + 1), k);
    PutKeepsUnique(payload, SEQ, Int(|rows| + 1));
    GetPut(p1, PREV, head, k);
    PutKeepsUnique(p1, PREV, head);
    GetPut(p2, APPENDED, Str(now), k);
    PutKeepsUnique(p2, APPENDED, Str(now));
    GetPut(p3, ENTRY_SHA, DigestOf(h, Obj(p3)), k);
    RowOfEntry(EntryFor(h, payload, rows, now).value, k);
  }

  /** The case, verdict, firmware and artifact of a payload are strings under keys the ledger does not use. */
  lemma NotLedgerKeys(c: Case, r: Run, i: nat)
    requires i == 1 || 3 <= i <= 5
    ensures Payload(c, r)[i].key !in {SEQ, PREV, APPENDED, ENTRY_SHA} && Payload(c, r)[i].value.Str?
  {
    RunKeysDiffer();
  }

  lemma PayloadFieldInRow(h: Hash, rows: seq<Value>, c: Case, r: Run, i: nat)
    requires Appends.HeadReadable(rows) && PlainRun(r) && (i == 1 || 3 <= i <= 5)
    ensures EntryFor(h, Payload(c, r), rows, r.now).Ok?
    ensures var row := RowOf(EntryFor(h, Payload(c, r), rows, r.now).value);
      row.Obj? && Get(row.fields, Payload(c, r)[i].key) == Some(Payload(c, r)[i].value)
  {
    NotLedgerKeys(c, r, i);
    PayloadPlain(c, r);
    PayloadLacksDigest(c, r);
    FieldReachesRow(h, rows, Payload(c, r), r.now, i);
  }

  lemma RowNamesRun(h: Hash, rows: seq<Value>, c: Case, r: Run)
    requires Appends.HeadReadable(rows) && PlainRun(r) && c.name == r.caseName
    ensures EntryFor(h, Payload(c, r), rows, r.now).Ok?
    ensures RunRow(RowOf(EntryFor(h, Payload(c, r), rows, r.now).value), r)
  {
    PayloadFieldInRow(h, rows, c, r, 1);
    PayloadFieldInRow(h, rows, c, r, 3);
    PayloadFieldInRow(h, rows, c, r, 4);
    PayloadFieldInRow(h, rows, c, r, 5);
  }

  // ---- the invariant ---------------------------------------------------------------

  /** The ledger file is intact and its rows are the runs that reached it, in order. */
  predicate LedgerInv(h: Hash, text: string, runs: seq<Run>) {
    && Terminated(text) && EntriesOf(text).Ok? && Clean(h, EntriesOf(text).value)
    && |EntriesOf(text).value| == |runs|
    && forall i :: 0 <= i < |runs| ==> RunRow(EntriesOf(text).value[i], runs[i])
  }

  /** The run passed this case on this artifact, under this firmware when one is named. */
  predicate Answers(r: Run, need: Requirement, artifact: PyString) {
    Passed(r) && r.artifact == artifact && r.caseName == need.name
    && (need.firmware.Some? ==> r.firmware == need.firmware.value)
  }

  /** Some run up to `k` passed this case on this artifact, under this firmware when one is named. */
  predicate Supported(runs: seq<Run>, k: nat, need: Requirement, artifact: PyString) {
    exists j :: 0 <= j < |runs| && j <= k && Answers(runs[j], need, artifact)
  }

  predicate AllSupported(runs: seq<Run>, k: nat, needs: seq<Requirement>, artifact: PyString) {
    forall i :: 0 <= i < |needs| ==> Supported(runs, k, needs[i], artifact)
  }

  /** Everything a case needs besides its own run. */
  predicate NeedsMet(runs: seq<Run>, k: nat, c: Case, artifact: PyString) {
    && AllSupported(runs, k, c.requiredRuns, artifact)
    && AllSupported(runs, k, AsRequirements(c.companions), artifact)
  }

  /** What may stand behind "`m` = pass" in the manifest. */
  predicate Justified(runs: seq<Run>, k: nat, m: string) {
    && k < |runs|
    && var c := FindCase(CASES, runs[k].caseName);
    && c.Some? && c.value.manifestCase == Some(m) && !c.value.manifestGap
    && Passed(runs[k]) && runs[k].evidenceFiles > 0
    && NeedsMet(runs, k, c.value, runs[k].artifact)
  }

  predicate ManifestInv(manifest: map<string, Run>, runs: seq<Run>) {
    forall m :: m in manifest ==> exists k :: 0 <= k < |runs| && runs[k] == manifest[m] && Justified(runs, k, m)
  }

  predicate Inv(h: Hash, w: World) {
    LedgerInv(h, w.ledger, w.runs) && ManifestInv(w.manifest, w.runs)
  }

  // ---- appending keeps the ledger half -------------------------------------------------

  lemma LedgerInvSnoc(h: Hash, text: string, runs: seq<Run>, text': string, row: Value, r: Run)
    requires LedgerInv(h, text, runs)
    requires Terminated(text') && EntriesOf(text') == Ok(EntriesOf(text).value + [row])
    requires Clean(h, EntriesOf(text).value + [row]) && RunRow(row, r)
    ensures LedgerInv(h, text', runs + [r])
  {
  }

  lemma PayloadLacksDigest(c: Case, r: Run)
    ensures !Has(Payload(c, r), ENTRY_SHA)
  {
    RunKeysDiffer();
    var i := IndexOf(Payload(c, r), ENTRY_SHA);
    assert forall j :: 0 <= j < |Payload(c, r)| ==> Payload(c, r)[j].key != ENTRY_SHA;
  }

  lemma EntryWritten(h: Hash, w: World, c: Case, r: Run)
    requires LedgerInv(h, w.ledger, w.runs) && PlainRun(r) && c.name == r.caseName
    ensures EntryFor(h, Payload(c, r), EntriesOf(w.ledger).value, r.now).Ok?
    ensures LedgerInv(h, w.ledger + LineOf(EntryFor(h, Payload(c, r), EntriesOf(w.ledger).value, r.now).value),
      w.runs + [r])
  {
    var rows := EntriesOf(w.ledger).value;
    PayloadPlain(c, r);
    PayloadLacksDigest(c, r);
    Appends.CleanIsReadable(h, rows);
    RowNamesRun(h, rows, c, r);
    AppendKeepsClean(h, rows, Payload(c, r), r.now);
    var entry := EntryFor(h, Payload(c, r), rows, r.now).value;
    FileRoundTrip(w.ledger, entry);
    LedgerInvSnoc(h, w.ledger, w.runs, w.ledger + LineOf(entry), RowOf(entry), r);
  }

  // ---- what the guards find ------------------------------------------------------------

  lemma {:induction false} MatchingFinds(rows: seq<Value>, criteria: seq<Field>)
    requires forall i :: 0 <= i < |rows| ==> rows[i].Obj?
    ensures Matching(rows, criteria).Ok?
    ensures |Matching(rows, criteria).value| > 0
            <==> exists i :: 0 <= i < |rows| && Matches(rows[i].fields, criteria)
  {
    if |rows| > 0 {
      MatchingFinds(rows[1..], criteria);
      assert (exists i :: 0 <= i < |rows| && Matches(rows[i].fields, criteria))
        <==>
          Matches(rows[0].fields, criteria)
          || exists i :: 0 <= i < |rows[1..]| && Matches(rows[1..][i].fields, criteria)
      by {
        if i :| 0 <= i < |rows| && Matches(rows[i].fields, criteria) && i > 0 {
          assert rows[1..][i - 1] == rows[i];
        }
        if i :| 0 <= i < |rows[1..]| && Matches(rows[1..][i].fields, criteria) {
          assert rows[i + 1] == rows[1..][i];
        }
      }
    }
  }

  /** A ledger row answers a requirement exactly when the run behind it does. */
  lemma RowAnswers(row: Value, r: Run, need: Requirement, artifact: PyString)
    requires RunRow(row, r)
    ensures Matches(row.fields, PassedCriteria(need.name, need.firmware, artifact)) <==> Answers(r, need, artifact)
  {
    VerdictMeans(r);
    PyInjective(VerdictName(VerdictOf(r)), "PASS");
    PyInjective(r.caseName, need.name);
    if need.firmware.Some? {
      PyInjective(r.firmware, need.firmware.value);
      FourCriteria(row.fields, need.name, need.firmware.value, artifact);
    } else {
      ThreeCriteria(row.fields, need.name, artifact);
    }
  }

  lemma ThreeCriteria(row: seq<Field>, name: string, artifact: PyString)
    ensures Matches(row, PassedCriteria(name, None, artifact)) <==>
      && MatchesOne(row, K_CASE, Py(name)) && MatchesOne(row, K_VERDICT, Py("PASS"))
          && MatchesOne(row, K_ARTIFACT, artifact)
  {
    var criteria := PassedCriteria(name, None, artifact);
    assert criteria == [Field(K_CASE, Str(Py(name))), Field(K_VERDICT, Str(Py("PASS"))),
        Field(K_ARTIFACT, Str(artifact))];
    if Matches(row, criteria) {
      assert criteria[0].key == K_CASE && criteria[1].key == K_VERDICT && criteria[2].key == K_ARTIFACT;
    }
  }

  lemma FourCriteria(row: seq<Field>, name: string, firmware: string, artifact: PyString)
    ensures Matches(row, PassedCriteria(name, Some(firmware), artifact)) <==>
      && MatchesOne(row, K_CASE, Py(name)) && MatchesOne(row, K_FIRMWARE, Py(firmware))
      && MatchesOne(row, K_VERDICT, Py("PASS")) && MatchesOne(row, K_ARTIFACT, artifact)
  {
    var criteria := PassedCriteria(name, Some(firmware), artifact);
    assert criteria == [Field(K_CASE, Str(Py(name))), Field(K_FIRMWARE, Str(Py(firmware))),
                        Field(K_VERDICT, Str(Py("PASS"))), Field(K_ARTIFACT, Str(artifact))];
    if Matches(row, criteria) {
      assert criteria[0].key == K_CASE && criteria[1].key == K_FIRMWARE;
      assert criteria[2].key == K_VERDICT && criteria[3].key == K_ARTIFACT;
    }
  }

  predicate MatchesOne(row: seq<Field>, key: PyString, s: PyString) {
    Get(row, key).Some? && SameValue(Get(row, key).value, Str(s))
  }

  /** One row per run, in order. */
  predicate RowsOfRuns(rows: seq<Value>, runs: seq<Run>) {
    |rows| == |runs| > 0 && forall i :: 0 <= i < |runs| ==> RunRow(rows[i], runs[i])
  }

  lemma FoundIffSupported(rows: seq<Value>, runs: seq<Run>, need: Requirement, artifact: PyString)
    requires RowsOfRuns(rows, runs)
    ensures Matching(rows, PassedCriteria(need.name, need.firmware, artifact)).Ok?
    ensures |Matching(rows, PassedCriteria(need.name, need.firmware, artifact)).value| > 0
            <==> Supported(runs, |runs| - 1, need, artifact)
  {
    var criteria := PassedCriteria(need.name, need.firmware, artifact);
    MatchingFinds(rows, criteria);
    forall i | 0 <= i < |runs|
      ensures Matches(rows[i].fields, criteria) <==> Answers(runs[i], need, artifact)
    {
      RowAnswers(rows[i], runs[i], need, artifact);
    }
  }

  lemma AllSupportedCons(runs: seq<Run>, k: nat, needs: seq<Requirement>, artifact: PyString)
    requires |needs| > 0
    ensures AllSupported(runs, k, needs, artifact)
            <==> Supported(runs, k, needs[0], artifact) && AllSupported(runs, k, needs[1..], artifact)
  {
    if Supported(runs, k, needs[0], artifact) && AllSupported(runs, k, needs[1..], artifact) {
      forall i | 0 <= i < |needs|
        ensures Supported(runs, k, needs[i], artifact)
      {
        assert i > 0 ==> needs[i] == needs[1..][i - 1];
      }
    }
  }

  lemma {:induction false} RequirementsIff(rows: seq<Value>, runs: seq<Run>, needs: seq<Requirement>,
          artifact: PyString)
    requires RowsOfRuns(rows, runs)
    ensures RequirementsMet(rows, needs, artifact) == Ok(AllSupported(runs, |runs| - 1, needs, artifact))
  {
    if |needs| > 0 {
      FoundIffSupported(rows, runs, needs[0], artifact);
      AllSupportedCons(runs, |runs| - 1, needs, artifact);
      RequirementsIff(rows, runs, needs[1..], artifact);
    }
  }

  lemma CompanionsIff(h: Hash, rows: seq<Value>, runs: seq<Run>, c: Case, r: Run)
    requires RowsOfRuns(rows, runs) && Clean(h, rows)
    ensures DecideCompanions(h, rows, c, r) == Recorded
            <==> && AllSupported(runs, |runs| - 1, AsRequirements(c.companions), r.artifact)
                 && r.evidenceFiles > 0 && r.recorderAccepts
  {
    RequirementsIff(rows, runs, AsRequirements(c.companions), r.artifact);
  }

  lemma DecidedWhen(h: Hash, rows: seq<Value>, c: Case, r: Run, met: bool)
    requires RequirementsMet(rows, c.requiredRuns, r.artifact) == Ok(met)
    ensures Decide(h, Ok(rows), c, r) == Recorded
            <==> && Passed(r) && c.manifestCase.Some? && c.manifestCase.value != "" && !c.manifestGap
                 && met && DecideCompanions(h, rows, c, r) == Recorded
  {
    VerdictMeans(r);
  }

  lemma DecidedIff(h: Hash, rows: seq<Value>, runs: seq<Run>, c: Case, r: Run)
    requires RowsOfRuns(rows, runs) && Clean(h, rows)
    ensures Decide(h, Ok(rows), c, r) == Recorded
            <==> && Passed(r) && c.manifestCase.Some? && c.manifestCase.value != "" && !c.manifestGap
                 && NeedsMet(runs, |runs| - 1, c, r.artifact)
                 && r.evidenceFiles > 0 && r.recorderAccepts
  {
    RequirementsIff(rows, runs, c.requiredRuns, r.artifact);
    DecidedWhen(h, rows, c, r, AllSupported(runs, |runs| - 1, c.requiredRuns, r.artifact));
    CompanionsIff(h, rows, runs, c, r);
  }

  /**
   A run is recorded exactly when it passed, its case maps to a manifest case with
   no gap, every required run and companion passed on the same artifact, it
   produced evidence, and the release recorder accepted it.
   */
  lemma RecordedIff(h: Hash, text: string, runs: seq<Run>, c: Case, r: Run)
    requires LedgerInv(h, text, runs) && |runs| > 0
    ensures Decide(h, EntriesOf(text), c, r) == Recorded
            <==> && Passed(r) && c.manifestCase.Some? && c.manifestCase.value != "" && !c.manifestGap
                 && NeedsMet(runs, |runs| - 1, c, r.artifact)
                 && r.evidenceFiles > 0 && r.recorderAccepts
  {
    DecidedIff(h, EntriesOf(text).value, runs, c, r);
  }

  // ---- main result -------------------------------------------------------------------

  lemma SupportedStays(runs: seq<Run>, r: Run, k: nat, need: Requirement, artifact: PyString)
    requires Supported(runs, k, need, artifact)
    ensures Supported(runs + [r], k, need, artifact)
  {
    var j :| 0 <= j < |runs| && j <= k && Answers(runs[j], need, artifact);
    assert (runs + [r])[j] == runs[j];
  }

  lemma AllSupportedStays(runs: seq<Run>, r: Run, k: nat, needs: seq<Requirement>, artifact: PyString)
    requires AllSupported(runs, k, needs, artifact)
    ensures AllSupported(runs + [r], k, needs, artifact)
  {
    forall i | 0 <= i < |needs|
      ensures Supported(runs + [r], k, needs[i], artifact)
    {
      SupportedStays(runs, r, k, needs[i], artifact);
    }
  }

  lemma JustifiedStays(runs: seq<Run>, r: Run, k: nat, m: string)
    requires Justified(runs, k, m)
    ensures Justified(runs + [r], k, m)
  {
    var c := FindCase(CASES, runs[k].caseName).value;
    assert (runs + [r])[k] == runs[k];
    AllSupportedStays(runs, r, k, c.requiredRuns, runs[k].artifact);
    AllSupportedStays(runs, r, k, AsRequirements(c.companions), runs[k].artifact);
  }

  lemma ManifestStays(manifest: map<string, Run>, runs: seq<Run>, r: Run)
    requires ManifestInv(manifest, runs)
    ensures ManifestInv(manifest, runs + [r])
  {
    forall m | m in manifest
      ensures exists k :: 0 <= k < |runs + [r]| && (runs + [r])[k] == manifest[m] && Justified(runs + [r], k, m)
    {
      var k :| 0 <= k < |runs| && runs[k] == manifest[m] && Justified(runs, k, m);
      JustifiedStays(runs, r, k, m);
      assert (runs + [r])[k] == manifest[m];
    }
  }

  lemma ManifestGrows(manifest: map<string, Run>, runs: seq<Run>, m: string)
    requires ManifestInv(manifest, runs) && |runs| > 0 && Justified(runs, |runs| - 1, m)
    ensures ManifestInv(manifest[m := runs[|runs| - 1]], runs)
  {
  }

  lemma StepFinishes(h: Hash, w: World, c: Case, r: Run, entry: seq<Field>)
    requires FindCase(CASES, r.caseName) == Some(c) && r.sidecarAgrees != Some(false) && !r.aborts
    requires EntriesOf(w.ledger).Ok? && EntryFor(h, Payload(c, r), EntriesOf(w.ledger).value, r.now) == Ok(entry)
    ensures RunStep(h, w, r) == Finish(h, w.(ledger := w.ledger + LineOf(entry), runs := w.runs + [r]), c, r)
  {
  }

  /** What is done behind the row: the manifest may have one more record, and nothing else changes. */
  lemma FinishWrites(h: Hash, w: World, c: Case, r: Run)
    ensures Finish(h, w, c, r).world ==
      if r.record && Decide(h, EntriesOf(w.ledger), c, r) == Recorded
      then w.(manifest := w.manifest[c.manifestCase.value := r]) else w
  {
  }

  /** A run that is recorded is justified. */
  lemma RecordedIsJustified(h: Hash, text: string, runs: seq<Run>, c: Case, r: Run)
    requires LedgerInv(h, text, runs) && |runs| > 0 && runs[|runs| - 1] == r
    requires FindCase(CASES, r.caseName) == Some(c) && Decide(h, EntriesOf(text), c, r) == Recorded
    ensures c.manifestCase.Some? && Justified(runs, |runs| - 1, c.manifestCase.value)
  {
    RecordedIff(h, text, runs, c, r);
  }

  lemma InvGrows(h: Hash, w: World, next: World, m: string)
    requires Inv(h, w) && |w.runs| > 0 && Justified(w.runs, |w.runs| - 1, m)
    requires next == w.(manifest := w.manifest[m := w.runs[|w.runs| - 1]])
    ensures Inv(h, next)
  {
    ManifestGrows(w.manifest, w.runs, m);
  }

  lemma FinishKeepsInv(h: Hash, w: World, c: Case, r: Run)
    requires Inv(h, w) && |w.runs| > 0 && w.runs[|w.runs| - 1] == r
    requires FindCase(CASES, r.caseName) == Some(c)
    ensures Inv(h, Finish(h, w, c, r).world)
  {
    var next := Finish(h, w, c, r).world;
    FinishWrites(h, w, c, r);
    if next != w {
      RecordedIsJustified(h, w.ledger, w.runs, c, r);
      InvGrows(h, w, next, c.manifestCase.value);
    }
  }

  lemma CaseKeepsInv(h: Hash, w: World, c: Case, r: Run)
    requires Inv(h, w) && PlainRun(r) && FindCase(CASES, r.caseName) == Some(c)
    ensures Inv(h, RunCase(h, w, c, r).world)
  {
    if r.sidecarAgrees != Some(false) && !r.aborts {
      EntryWritten(h, w, c, r);
      var entry := EntryFor(h, Payload(c, r), EntriesOf(w.ledger).value, r.now).value;
      ManifestStays(w.manifest, w.runs, r);
      FinishKeepsInv(h, w.(ledger := w.ledger + LineOf(entry), runs := w.runs + [r]), c, r);
    }
  }

  lemma RunStepKeepsInv(h: Hash, w: World, r: Run)
    requires Inv(h, w) && PlainRun(r)
    ensures Inv(h, RunStep(h, w, r).world)
  {
    var found := FindCase(CASES, r.caseName);
    if found.Some? {
      CaseKeepsInv(h, w, found.value, r);
    }
  }

  predicate PlainRuns(rs: seq<Run>) {
    forall i :: 0 <= i < |rs| ==> PlainRun(rs[i])
  }

  /** The world after a sequence of runs, from an empty ledger and manifest. */
  function After(h: Hash, rs: seq<Run>): World {
    RunAll(h, World("", map[], []), rs)
  }

  /** The invariant holds after every sequence of runs with any outcomes. */
  lemma {:induction false} AlwaysInv(h: Hash, rs: seq<Run>)
    requires PlainRuns(rs)
    ensures Inv(h, After(h, rs))
  {
    if |rs| > 0 {
      var init := rs[..|rs| - 1];
      AlwaysInv(h, init);
      RunStepKeepsInv(h, After(h, init), rs[|rs| - 1]);
    }
  }

  /**
   After every sequence of runs the ledger verifies, its rows are the runs that
   reached it, and each recorded case is justified by a passing run and by
   passing runs of everything that run's case requires, on the same artifact.
   */
  lemma {:induction false} RecordsAreJustified(h: Hash, rs: seq<Run>, m: string)
    requires PlainRuns(rs)
    ensures var w := After(h, rs);
      && LedgerInv(h, w.ledger, w.runs)
      && (m in w.manifest ==> exists k :: 0 <= k < |w.runs| && w.runs[k] == w.manifest[m] && Justified(w.runs, k, m))
  {
    AlwaysInv(h, rs);
  }

  /** Everything that must hold of a run, in a world, for it to be recorded. */
  predicate ShouldRecord(runs: seq<Run>, c: Case, r: Run) {
    && r.sidecarAgrees != Some(false) && !r.aborts && r.record
    && Passed(r) && c.manifestCase.Some? && c.manifestCase.value != "" && !c.manifestGap
    && NeedsMet(runs + [r], |runs|, c, r.artifact) && r.evidenceFiles > 0 && r.recorderAccepts
  }

  lemma FinishRecords(h: Hash, w: World, runs: seq<Run>, c: Case, r: Run)
    requires w.runs == runs + [r] && LedgerInv(h, w.ledger, w.runs) && r.sidecarAgrees != Some(false) && !r.aborts
    ensures Finish(h, w, c, r).world.manifest
        == if ShouldRecord(runs, c, r) then w.manifest[c.manifestCase.value := r] else w.manifest
  {
    FinishWrites(h, w, c, r);
    RecordedIff(h, w.ledger, w.runs, c, r);
  }

  lemma StepStops(h: Hash, w: World, c: Case, r: Run)
    requires FindCase(CASES, r.caseName) == Some(c) && (r.sidecarAgrees == Some(false) || r.aborts)
    ensures RunStep(h, w, r).world == w
  {
  }

  lemma StepRecords(h: Hash, w: World, r: Run, c: Case)
    requires LedgerInv(h, w.ledger, w.runs) && PlainRun(r) && FindCase(CASES, r.caseName) == Some(c)
    ensures RunStep(h, w, r).world.manifest
        == if ShouldRecord(w.runs, c, r) then w.manifest[c.manifestCase.value := r] else w.manifest
  {
    if r.sidecarAgrees != Some(false) && !r.aborts {
      EntryWritten(h, w, c, r);
      var entry := EntryFor(h, Payload(c, r), EntriesOf(w.ledger).value, r.now).value;
      StepFinishes(h, w, c, r, entry);
      FinishRecords(h, w.(ledger := w.ledger + LineOf(entry), runs := w.runs + [r]), w.runs, c, r);
    } else {
      StepStops(h, w, c, r);
    }
  }

  /**
   What one more run does to the manifest, exactly: it is recorded when everything holds,
   and else nothing changes.
   */
  lemma {:induction false} OneMoreRun(h: Hash, rs: seq<Run>, r: Run, c: Case)
    requires PlainRuns(rs) && PlainRun(r) && FindCase(CASES, r.caseName) == Some(c)
    ensures var w := After(h, rs);
      RunStep(h, w, r).world.manifest
        == if ShouldRecord(w.runs, c, r) then w.manifest[c.manifestCase.value := r] else w.manifest
  {
    AlwaysInv(h, rs);
    StepRecords(h, After(h, rs), r, c);
  }

  /** Some run in the ledger answers the requirement. */
  predicate HasPassed(runs: seq<Run>, need: Requirement, artifact: PyString) {
    exists j :: 0 <= j < |runs| && Answers(runs[j], need, artifact)
  }

  // ---- what that means for the release cases ---------------------------------------------

  lemma CaseTable(name: string)
    requires FindCase(CASES, name).Some?
    ensures var c := FindCase(CASES, name).value;
      && (c.manifestCase == Some("INSTALL-01") && !c.manifestGap ==>
            name == "install-both-firmwares" && |c.requiredRuns| == 2
            && c.requiredRuns[0] == Requirement("install", Some("bios"))
            && c.requiredRuns[1] == Requirement("install", Some("uefi")))
      && (c.manifestCase == Some("RECOVERY-01") && !c.manifestGap ==>
            name == "recovery-project" && |c.requiredRuns| == 2
            && c.requiredRuns[0] == Requirement("recovery", None)
            && c.requiredRuns[1] == Requirement("recovery-interrupted", None))
      && (c.manifestCase.Some? && !c.manifestGap ==> c.manifestCase.value in {"INSTALL-01", "RECOVERY-01"})
  {
    var c := FindCase(CASES, name).value;
    assert c in CASES;
  }

  lemma JustifiedInstall(runs: seq<Run>, k: nat)
    requires Justified(runs, k, "INSTALL-01")
    ensures runs[k].caseName == "install-both-firmwares"
    ensures Supported(runs, k, Requirement("install", Some("bios")), runs[k].artifact)
    ensures Supported(runs, k, Requirement("install", Some("uefi")), runs[k].artifact)
  {
    CaseTable(runs[k].caseName);
  }

  lemma JustifiedRecovery(runs: seq<Run>, k: nat)
    requires Justified(runs, k, "RECOVERY-01")
    ensures runs[k].caseName == "recovery-project"
    ensures Supported(runs, k, Requirement("recovery", None), runs[k].artifact)
    ensures Supported(runs, k, Requirement("recovery-interrupted", None), runs[k].artifact)
  {
    CaseTable(runs[k].caseName);
  }

  /** INSTALL-01 is recorded only from the two-firmware case, with a BIOS and a UEFI install passed on that artifact. */
  lemma {:induction false} InstallNeedsBothFirmwares(h: Hash, rs: seq<Run>)
    requires PlainRuns(rs)
    ensures var w := After(h, rs);
      "INSTALL-01" in w.manifest ==>
        && w.manifest["INSTALL-01"].caseName == "install-both-firmwares" && Passed(w.manifest["INSTALL-01"])
        && HasPassed(w.runs, Requirement("install", Some("bios")), w.manifest["INSTALL-01"].artifact)
        && HasPassed(w.runs, Requirement("install", Some("uefi")), w.manifest["INSTALL-01"].artifact)
  {
    RecordsAreJustified(h, rs, "INSTALL-01");
    var w := After(h, rs);
    if "INSTALL-01" in w.manifest {
      var k :| 0 <= k < |w.runs| && w.runs[k] == w.manifest["INSTALL-01"] && Justified(w.runs, k, "INSTALL-01");
      JustifiedInstall(w.runs, k);
    }
  }

  /** RECOVERY-01 is recorded only from the project case, with both rollback cases passed on that artifact. */
  lemma {:induction false} RecoveryNeedsBothHalves(h: Hash, rs: seq<Run>)
    requires PlainRuns(rs)
    ensures var w := After(h, rs);
      "RECOVERY-01" in w.manifest ==>
        && w.manifest["RECOVERY-01"].caseName == "recovery-project" && Passed(w.manifest["RECOVERY-01"])
        && HasPassed(w.runs, Requirement("recovery", None), w.manifest["RECOVERY-01"].artifact)
        && HasPassed(w.runs, Requirement("recovery-interrupted", None), w.manifest["RECOVERY-01"].artifact)
  {
    RecordsAreJustified(h, rs, "RECOVERY-01");
    var w := After(h, rs);
    if "RECOVERY-01" in w.manifest {
      var k :| 0 <= k < |w.runs| && w.runs[k] == w.manifest["RECOVERY-01"] && Justified(w.runs, k, "RECOVERY-01");
      JustifiedRecovery(w.runs, k);
    }
  }

  /** Nothing else is ever recorded: a case with a gap, UPGRADE-01 among them, never is. */
  lemma {:induction false} NothingElseIsRecorded(h: Hash, rs: seq<Run>, m: string)
    requires PlainRuns(rs)
    ensures m in After(h, rs).manifest ==> m in {"INSTALL-01", "RECOVERY-01"}
  {
    RecordsAreJustified(h, rs, m);
    var w := After(h, rs);
    if m in w.manifest {
      var k :| 0 <= k < |w.runs| && w.runs[k] == w.manifest[m] && Justified(w.runs, k, m);
      CaseTable(w.runs[k].caseName);
    }
  }

  // ---- a broken ledger records nothing -------------------------------------------------------

  lemma RecordingNeedsClean(h: Hash, rows: Result<seq<Value>>, c: Case, r: Run)
    requires Decide(h, rows, c, r) == Recorded
    ensures rows.Ok? && Clean(h, rows.value)
  {
  }

  /** Once a write fell between some append's read and its write, no run is recorded any more, whatever follows. */
  lemma OverlapStopsRecording(h: Hash, text: string, steps: seq<Appends.Step>, n: nat, c: Case, r: Run)
    requires Terminated(text) && EntriesOf(text).Ok? && Clean(h, EntriesOf(text).value)
    requires Appends.GoodPayloads(steps) && Appends.Run(h, text, steps).Some? && n <= |steps|
    requires Appends.Run(h, text, steps[..n]).Some? && Appends.RowsAfter(h, text, steps[..n]).Ok?
    requires NoBreach(h, Appends.RowsAfter(h, text, steps[..n]).value) && !Appends.Undisturbed(steps[..n])
    ensures Decide(h, Appends.RowsAfter(h, text, steps), c, r) != Recorded
  {
    Appends.BrokenStaysBroken(h, text, steps, n);
    Appends.InterleavedAppends(h, text, steps[..n]);
    if Decide(h, Appends.RowsAfter(h, text, steps), c, r) == Recorded {
      RecordingNeedsClean(h, Appends.RowsAfter(h, text, steps), c, r);
    }
  }
}
