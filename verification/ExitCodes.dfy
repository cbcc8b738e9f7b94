/** The exit code of every run of the acceptance harness. */
module ExitCodes {
  import opened Outcomes
  import opened Json
  import opened Ledgers
  import opened LedgerFile
  import opened Chain
  import opened Acceptance
  import opened AcceptanceProofs
  import Appends
  import Concurrent

  /** A record is asked for, and the run and its case could have one. */
  predicate Asked(c: Case, r: Run) {
    r.record && Passed(r) && c.manifestCase.Some? && c.manifestCase.value != "" && !c.manifestGap
  }

  /** Nothing failed, and nothing was proved: the case was blocked, or evaluated no check. */
  predicate ProvedNothing(r: Run) {
    false !in r.checks && (r.ending == RaisedBlocked || (r.ending == Finished && r.checks == []))
  }

  /** Nothing failed before the case broke off with an exception. */
  predicate BrokeOff(r: Run) {
    false !in r.checks && r.ending == RaisedOther
  }

  /** The record behind all required runs is refused. */
  predicate Withheld(r: Run, intact: bool) {
    !intact || r.evidenceFiles == 0 || !r.recorderAccepts
  }

  /** The exit code by what the run did, and by what the ledger holds when the guards look. */
  predicate ExitFollows(exit: Option<int>, c: Case, r: Run, met: bool, intact: bool) {
    && exit in {Some(0), Some(1), Some(2), Some(3)}
    && (exit == Some(0) <==> Passed(r) && (Asked(c, r) ==> met && !Withheld(r, intact)))
    && (exit == Some(1) <==> false in r.checks)
    && (exit == Some(2) <==> BrokeOff(r) || (Asked(c, r) && met && Withheld(r, intact)))
    && (exit == Some(3) <==> ProvedNothing(r) || (Asked(c, r) && !met))
  }

  lemma {:induction false} ObjectsVerify(h: Hash, rows: seq<Value>, previous: Value)
    requires forall i :: 0 <= i < |rows| ==> rows[i].Obj?
    ensures ProblemsFrom(h, rows, previous).Ok?
  {
    if |rows| > 0 {
      ObjectsVerify(h, rows[1..], LinkAfter(rows[0].fields));
    }
  }

  lemma RestIs(h: Hash, rows: seq<Value>, runs: seq<Run>, c: Case, r: Run)
    requires RowsOfRuns(rows, runs)
    ensures DecideCompanions(h, rows, c, r) ==
      if !AllSupported(runs, |runs| - 1, AsRequirements(c.companions), r.artifact) then NotRecorded(3)
      else if Withheld(r, Clean(h, rows)) then NotRecorded(2) else Recorded
  {
    RequirementsIff(rows, runs, AsRequirements(c.companions), r.artifact);
    ObjectsVerify(h, rows, Str(GENESIS));
  }

  lemma DecisionIs(h: Hash, rows: seq<Value>, runs: seq<Run>, c: Case, r: Run)
    requires RowsOfRuns(rows, runs) && r.record
    ensures Decide(h, Ok(rows), c, r) ==
      if !Asked(c, r) then NotRecorded(0)
      else if !NeedsMet(runs, |runs| - 1, c, r.artifact) then NotRecorded(3)
      else if Withheld(r, Clean(h, rows)) then NotRecorded(2) else Recorded
  {
    VerdictMeans(r);
    RequirementsIff(rows, runs, c.requiredRuns, r.artifact);
    RestIs(h, rows, runs, c, r);
  }

  lemma CodeFollows(c: Case, r: Run, met: bool, intact: bool)
    ensures ExitFollows(
      if Asked(c, r) && !met then Some(3)
      else if Asked(c, r) && Withheld(r, intact) then Some(2) else Some(ExitCode(VerdictOf(r))), c, r, met, intact)
  {
    VerdictMeans(r);
  }

  lemma FinishExits(h: Hash, w: World, c: Case, r: Run, met: bool, intact: bool)
    requires EntriesOf(w.ledger).Ok? && RowsOfRuns(EntriesOf(w.ledger).value, w.runs)
    requires met == NeedsMet(w.runs, |w.runs| - 1, c, r.artifact) && intact == Clean(h, EntriesOf(w.ledger).value)
    ensures ExitFollows(Finish(h, w, c, r).exit, c, r, met, intact)
  {
    CodeFollows(c, r, met, intact);
    if r.record {
      DecisionIs(h, EntriesOf(w.ledger).value, w.runs, c, r);
    }
  }

  /** The line of a run is added, and the ledger is intact behind it exactly when it was before. */
  lemma LineAdded(h: Hash, w: World, c: Case, r: Run)
    requires Concurrent.Logged(w.ledger, w.runs) && PlainRun(r) && c.name == r.caseName
    ensures EntryFor(h, Payload(c, r), EntriesOf(w.ledger).value, r.now).Ok?
    ensures var text := w.ledger + LineOf(EntryFor(h, Payload(c, r), EntriesOf(w.ledger).value, r.now).value);
      && Concurrent.Logged(text, w.runs + [r])
      && (Clean(h, EntriesOf(text).value) <==> Clean(h, EntriesOf(w.ledger).value))
  {
    var rows := EntriesOf(w.ledger).value;
    Concurrent.ReadMakesEntry(h, rows, c, r);
    var entry := EntryFor(h, Payload(c, r), rows, r.now).value;
    Concurrent.WriteKeepsLog(h, w.ledger, w.runs, entry, r);
    FileRoundTrip(w.ledger, entry);
    assert (rows + [RowOf(entry)])[..|rows|] == rows;
    if Clean(h, rows) {
      EntryWritten(h, w, c, r);
    } else if Clean(h, rows + [RowOf(entry)]) {
      CleanPrefix(h, rows + [RowOf(entry)], |rows|);
    }
  }

  lemma LoggedExits(h: Hash, w: World, c: Case, r: Run, met: bool, intact: bool)
    requires Concurrent.Logged(w.ledger, w.runs) && |w.runs| > 0
    requires met == NeedsMet(w.runs, |w.runs| - 1, c, r.artifact) && intact == Clean(h, EntriesOf(w.ledger).value)
    ensures ExitFollows(Finish(h, w, c, r).exit, c, r, met, intact)
  {
    FinishExits(h, w, c, r, met, intact);
  }

  /**
   On any ledger that can be read, intact or not, and for every run that gets as
   far as its case: the exit code is that of the verdict, unless a record was
   asked for and refused.
   */
  lemma ExitOnLedger(h: Hash, w: World, r: Run, c: Case)
    requires Concurrent.Logged(w.ledger, w.runs) && PlainRun(r) && FindCase(CASES, r.caseName) == Some(c)
    requires r.sidecarAgrees != Some(false) && !r.aborts
    ensures ExitFollows(RunStep(h, w, r).exit, c, r, NeedsMet(w.runs + [r], |w.runs|, c, r.artifact),
      Clean(h, EntriesOf(w.ledger).value))
  {
    LineAdded(h, w, c, r);
    var entry := EntryFor(h, Payload(c, r), EntriesOf(w.ledger).value, r.now).value;
    var met := NeedsMet(w.runs + [r], |w.runs|, c, r.artifact);
    LoggedExits(h, w.(ledger := w.ledger + LineOf(entry), runs := w.runs + [r]), c, r, met,
                Clean(h, EntriesOf(w.ledger).value));
    StepFinishes(h, w, c, r, entry);
  }

  /** A run that does not get as far leaves everything as it was: with code 2, or by an exception. */
  lemma ExitAtOnce(h: Hash, w: World, r: Run)
    requires (forall c :: c in CASES ==> c.name != r.caseName) || r.sidecarAgrees == Some(false) || r.aborts
             || EntriesOf(w.ledger).Err?
    ensures RunStep(h, w, r).world == w
    ensures RunStep(h, w, r).exit ==
      if (forall c :: c in CASES ==> c.name != r.caseName) || r.sidecarAgrees == Some(false) then Some(2) else None
  {
    if FindCase(CASES, r.caseName).Some? {
      assert FindCase(CASES, r.caseName).value in CASES;
    }
  }

  /**
   After any sequence of runs from an empty ledger, for every further run:
   code 2 for an unknown case or an image that is not the published one; an
   exception when the run breaks off before its row; else the code of the
   verdict, unless a record was asked for and is refused: with 3 when a required
   run has not passed, with 2 when there is no evidence or the recorder refuses.
   */
  lemma {:induction false} ExitOfRun(h: Hash, rs: seq<Run>, r: Run)
    requires PlainRuns(rs) && PlainRun(r)
    ensures var w, exit := After(h, rs), RunStep(h, After(h, rs), r).exit;
      if (forall c :: c in CASES ==> c.name != r.caseName) || r.sidecarAgrees == Some(false) then exit == Some(2)
      else if r.aborts then exit == None
      else
        exists c :: c in CASES && c.name == r.caseName
          && ExitFollows(exit, c, r, NeedsMet(w.runs + [r], |w.runs|, c, r.artifact), true)
  {
    AlwaysInv(h, rs);
    var w := After(h, rs);
    var found := FindCase(CASES, r.caseName);
    if found.None? || r.sidecarAgrees == Some(false) || r.aborts {
      ExitAtOnce(h, w, r);
    } else {
      Appends.CleanIsReadable(h, EntriesOf(w.ledger).value);
      ExitOnLedger(h, w, r, found.value);
    }
  }

  // ---- the two release cases ---------------------------------------------------------------

  lemma EarlierRun(runs: seq<Run>, r: Run, need: Requirement, artifact: PyString)
    requires r.caseName != need.name
    ensures Supported(runs + [r], |runs|, need, artifact) <==> HasPassed(runs, need, artifact)
  {
    if j :| 0 <= j < |runs| && Answers(runs[j], need, artifact) {
      assert (runs + [r])[j] == runs[j];
    }
    if j :| 0 <= j < |runs + [r]| && j <= |runs| && Answers((runs + [r])[j], need, artifact) {
      assert j < |runs|;
    }
  }

  lemma TwoNeeds(runs: seq<Run>, r: Run, c: Case, one: Requirement, two: Requirement)
    requires c.requiredRuns == [one, two] && c.companions == [] && r.caseName != one.name && r.caseName != two.name
    ensures NeedsMet(runs + [r], |runs|, c, r.artifact) <==>
      HasPassed(runs, one, r.artifact) && HasPassed(runs, two, r.artifact)
  {
    EarlierRun(runs, r, one, r.artifact);
    EarlierRun(runs, r, two, r.artifact);
    assert c.requiredRuns[0] == one && c.requiredRuns[1] == two;
  }

  /** What has to hold of the run itself. */
  predicate Eligible(r: Run) {
    && r.sidecarAgrees != Some(false) && !r.aborts && r.record
    && Passed(r) && r.evidenceFiles > 0 && r.recorderAccepts
  }

  lemma BehindTwo(h: Hash, rs: seq<Run>, r: Run, c: Case, one: Requirement, two: Requirement)
    requires PlainRuns(rs) && PlainRun(r) && FindCase(CASES, r.caseName) == Some(c)
    requires c.requiredRuns == [one, two] && c.companions == [] && r.caseName != one.name && r.caseName != two.name
    requires c.manifestCase.Some? && c.manifestCase.value != "" && !c.manifestGap
    ensures var w := After(h, rs);
      RunStep(h, w, r).world.manifest ==
        if Eligible(r) && HasPassed(w.runs, one, r.artifact) && HasPassed(w.runs, two, r.artifact)
        then w.manifest[c.manifestCase.value := r] else w.manifest
  {
    OneMoreRun(h, rs, r, c);
    TwoNeeds(After(h, rs).runs, r, c, one, two);
  }

  lemma {:induction false} FirstNamed(cases: seq<Case>, i: nat)
    requires i < |cases| && forall j :: 0 <= j < i ==> cases[j].name != cases[i].name
    ensures FindCase(cases, cases[i].name) == Some(cases[i])
  {
    if i > 0 {
      assert cases[0].name != cases[i].name && cases[1..][i - 1] == cases[i];
      assert forall j :: 0 <= j < i - 1 ==> cases[1..][j] == cases[j + 1];
      FirstNamed(cases[1..], i - 1);
    }
  }

  /** The two-firmware case is recorded exactly behind a BIOS and a UEFI install of the same artifact. */
  lemma {:induction false} InstallRecordedIff(h: Hash, rs: seq<Run>, r: Run)
    requires PlainRuns(rs) && PlainRun(r) && r.caseName == "install-both-firmwares"
    ensures var w := After(h, rs);
      RunStep(h, w, r).world.manifest ==
        if Eligible(r) && HasPassed(w.runs, Requirement("install", Some("bios")), r.artifact)
           && HasPassed(w.runs, Requirement("install", Some("uefi")), r.artifact)
        then w.manifest["INSTALL-01" := r] else w.manifest
  {
    FirstNamed(CASES, 2);
    BehindTwo(h, rs, r, CASES[2], Requirement("install", Some("bios")), Requirement("install", Some("uefi")));
  }

  /** The project case is recorded exactly behind both rollback cases on the same artifact. */
  lemma {:induction false} RecoveryRecordedIff(h: Hash, rs: seq<Run>, r: Run)
    requires PlainRuns(rs) && PlainRun(r) && r.caseName == "recovery-project"
    ensures var w := After(h, rs);
      RunStep(h, w, r).world.manifest ==
        if Eligible(r) && HasPassed(w.runs, Requirement("recovery", None), r.artifact)
           && HasPassed(w.runs, Requirement("recovery-interrupted", None), r.artifact)
        then w.manifest["RECOVERY-01" := r] else w.manifest
  {
    FirstNamed(CASES, 5);
    BehindTwo(h, rs, r, CASES[5], Requirement("recovery", None), Requirement("recovery-interrupted", None));
  }
}
