/**
 Harness runs at the same time on one ledger and one manifest: each reads the
 ledger for its entry, writes the entry's line, and goes through the guards of
 `record()` one read at a time, in any interleaving with the others.
 */
module Concurrent {
  import opened Outcomes
  import opened Json
  import opened JsonParsed
  import opened Ledgers
  import opened LedgerFile
  import opened Chain
  import opened Appends
  import opened Acceptance
  import opened AcceptanceProofs

  /** Where a run is: it holds an entry not written yet, or has passed some of the guards, or is through. */
  datatype Stage = Holding(entry: seq<Field>) | Checking(passed: nat) | Over

  datatype Job = Job(run: Acceptance.Run, c: Case, stage: Stage)

  /** One step of run `id`: the read before its append, its write, or its next guard. */
  datatype Act = ReadLedger(id: nat, run: Acceptance.Run) | WriteLine(id: nat) | Guard(id: nat)

  /** `runs` lists the runs in the order of their lines. */
  datatype Shared = Shared(text: string, runs: seq<Acceptance.Run>, jobs: map<nat, Job>,
      manifest: map<string, Acceptance.Run>)

  const EMPTY := Shared("", [], map[], map[])

  /** The rows a case asks for: its required runs, then its companions. */
  function Needs(c: Case): seq<Requirement> {
    c.requiredRuns + AsRequirements(c.companions)
  }

  /** `record()` gets as far as its first query. */
  predicate Queries(c: Case, r: Acceptance.Run) {
    r.record && VerdictOf(r) == PASS && c.manifestCase.Some? && c.manifestCase.value != "" && !c.manifestGap
  }

  function Begun(h: Hash, st: Shared, id: nat, r: Acceptance.Run): Option<Shared> {
    match FindCase(CASES, r.caseName)
    case None => None
    case Some(c) =>
      if r.sidecarAgrees == Some(false) || r.aborts || EntriesOf(st.text).Err? then None
      else
        match EntryFor(h, Payload(c, r), EntriesOf(st.text).value, r.now)
        case Ok(entry) => Some(st.(jobs := st.jobs[id := Job(r, c, Holding(entry))]))
        case Err(_) => None
  }

  /** The query for one requirement finds a row. */
  predicate QueryFinds(text: string, need: Requirement, artifact: PyString) {
    EntriesOf(text).Ok? &&
    var found := Matching(EntriesOf(text).value, PassedCriteria(need.name, need.firmware, artifact));
    found.Ok? && |found.value| > 0
  }

  /** Behind the queries and the verification comes the record itself. */
  predicate Records(job: Job) {
    && job.stage.Checking? && job.stage.passed > |Needs(job.c)| && job.c.manifestCase.Some?
    && job.run.evidenceFiles > 0 && job.run.recorderAccepts
  }

  /** The `n`-th guard of a run, on the ledger as it stands: a query, or behind the queries the verification. */
  predicate Passes(h: Hash, text: string, job: Job, n: nat) {
    if n < |Needs(job.c)| then QueryFinds(text, Needs(job.c)[n], job.run.artifact)
    else n == |Needs(job.c)| && Intact(h, text)
  }

  predicate Intact(h: Hash, text: string) {
    EntriesOf(text).Ok? && Clean(h, EntriesOf(text).value)
  }

  function StageAfter(h: Hash, text: string, job: Job): Stage
    requires job.stage.Checking?
  {
    if Passes(h, text, job, job.stage.passed) then Checking(job.stage.passed + 1) else Over
  }

  function Guarded(h: Hash, st: Shared, id: nat): Shared
    requires id in st.jobs && st.jobs[id].stage.Checking?
  {
    var job := st.jobs[id];
    Shared(st.text, st.runs, st.jobs[id := job.(stage := StageAfter(h, st.text, job))],
           if Records(job) then st.manifest[job.c.manifestCase.value := job.run] else st.manifest)
  }

  /** One step; None when the run is not there to take it. */
  function Next(h: Hash, st: Shared, act: Act): Option<Shared> {
    match act
    case ReadLedger(id, r) => if id in st.jobs then None else Begun(h, st, id, r)
    case WriteLine(id) =>
      if id !in st.jobs || !st.jobs[id].stage.Holding? then None
      else
        var job := st.jobs[id];
        Some(Shared(st.text + LineOf(job.stage.entry), st.runs + [job.run],
                    st.jobs[id := job.(stage := if Queries(job.c, job.run) then Checking(0) else Over)], st.manifest))
    case Guard(id) =>
      if id !in st.jobs || !st.jobs[id].stage.Checking? then None
      else Some(Guarded(h, st, id))
  }

  function AfterActs(h: Hash, acts: seq<Act>): Option<Shared> {
    if |acts| == 0 then Some(EMPTY)
    else
      match AfterActs(h, acts[..|acts| - 1])
      case Some(st) => Next(h, st, acts[|acts| - 1])
      case None => None
  }

  // ---- the invariant ---------------------------------------------------------------------

  /** Some run in the ledger answers the requirement. */
  predicate Backed(runs: seq<Acceptance.Run>, need: Requirement, artifact: PyString) {
    exists j :: 0 <= j < |runs| && Answers(runs[j], need, artifact)
  }

  predicate BackedUpTo(runs: seq<Acceptance.Run>, needs: seq<Requirement>, n: nat, artifact: PyString) {
    forall i :: 0 <= i < |needs| && i < n ==> Backed(runs, needs[i], artifact)
  }

  /** The ledger can be read, and its rows are the runs that wrote it, in order; it need not be intact. */
  predicate Logged(text: string, runs: seq<Acceptance.Run>) {
    && Terminated(text) && EntriesOf(text).Ok? && HeadReadable(EntriesOf(text).value)
    && |EntriesOf(text).value| == |runs|
    && forall i :: 0 <= i < |runs| ==> RunRow(EntriesOf(text).value[i], runs[i])
  }

  /** The entry's row can be read back and names the run. */
  predicate EntryGood(entry: seq<Field>, r: Acceptance.Run) {
    && Plain(Obj(entry)) && RowOf(entry).Obj? && Plain(RowOf(entry))
    && Get(RowOf(entry).fields, ENTRY_SHA).Some? && Get(RowOf(entry).fields, ENTRY_SHA).value.Str?
    && RunRow(RowOf(entry), r)
  }

  predicate JobInv(runs: seq<Acceptance.Run>, job: Job) {
    && FindCase(CASES, job.run.caseName) == Some(job.c)
    && (job.stage.Holding? ==> EntryGood(job.stage.entry, job.run))
    && (job.stage.Checking? ==>
          job.run in runs && Queries(job.c, job.run)
              && BackedUpTo(runs, Needs(job.c), job.stage.passed, job.run.artifact))
  }

  /**
   What stands behind "`m` = pass": a passing run of the case in the ledger, with evidence,
   and runs of all it requires.
   */
  predicate Justifies(runs: seq<Acceptance.Run>, r: Acceptance.Run, m: string) {
    && r in runs && Passed(r) && r.evidenceFiles > 0
    && var c := FindCase(CASES, r.caseName);
    && c.Some? && c.value.manifestCase == Some(m) && !c.value.manifestGap
    && BackedUpTo(runs, Needs(c.value), |Needs(c.value)|, r.artifact)
  }

  predicate JobsInv(runs: seq<Acceptance.Run>, jobs: map<nat, Job>) {
    forall id :: id in jobs ==> JobInv(runs, jobs[id])
  }

  predicate RecordsInv(runs: seq<Acceptance.Run>, manifest: map<string, Acceptance.Run>) {
    forall m :: m in manifest ==> Justifies(runs, manifest[m], m)
  }

  predicate Kept(st: Shared) {
    Logged(st.text, st.runs) && JobsInv(st.runs, st.jobs) && RecordsInv(st.runs, st.manifest)
  }

  // ---- more runs take nothing away ---------------------------------------------------------

  lemma BackedMore(runs: seq<Acceptance.Run>, r: Acceptance.Run, needs: seq<Requirement>, n: nat, artifact: PyString)
    requires BackedUpTo(runs, needs, n, artifact)
    ensures BackedUpTo(runs + [r], needs, n, artifact)
  {
    forall i | 0 <= i < |needs| && i < n
      ensures Backed(runs + [r], needs[i], artifact)
    {
      var j :| 0 <= j < |runs| && Answers(runs[j], needs[i], artifact);
      assert (runs + [r])[j] == runs[j];
    }
  }

  lemma JobMore(runs: seq<Acceptance.Run>, r: Acceptance.Run, job: Job)
    requires JobInv(runs, job)
    ensures JobInv(runs + [r], job)
  {
    if job.stage.Checking? {
      BackedMore(runs, r, Needs(job.c), job.stage.passed, job.run.artifact);
    }
  }

  lemma RecordMore(runs: seq<Acceptance.Run>, r: Acceptance.Run, recorded: Acceptance.Run, m: string)
    requires Justifies(runs, recorded, m)
    ensures Justifies(runs + [r], recorded, m)
  {
    var needs := Needs(FindCase(CASES, recorded.caseName).value);
    BackedMore(runs, r, needs, |needs|, recorded.artifact);
  }

  lemma RunsMore(runs: seq<Acceptance.Run>, r: Acceptance.Run, jobs: map<nat, Job>,
          manifest: map<string, Acceptance.Run>)
    requires JobsInv(runs, jobs) && RecordsInv(runs, manifest)
    ensures JobsInv(runs + [r], jobs) && RecordsInv(runs + [r], manifest)
  {
    forall id | id in jobs
      ensures JobInv(runs + [r], jobs[id])
    {
      JobMore(runs, r, jobs[id]);
    }
    forall m | m in manifest
      ensures Justifies(runs + [r], manifest[m], m)
    {
      RecordMore(runs, r, manifest[m], m);
    }
  }

  // ---- the steps ----------------------------------------------------------------------------

  lemma ReadMakesEntry(h: Hash, rows: seq<Value>, c: Case, r: Acceptance.Run)
    requires HeadReadable(rows) && PlainRun(r) && c.name == r.caseName
    ensures EntryFor(h, Payload(c, r), rows, r.now).Ok? && EntryGood(EntryFor(h, Payload(c, r), rows, r.now).value, r)
  {
    PayloadPlain(c, r);
    PayloadLacksDigest(c, r);
    WrittenRow(h, rows, Payload(c, r), r.now);
    RowNamesRun(h, rows, c, r);
  }

  lemma BegunKeeps(h: Hash, st: Shared, id: nat, r: Acceptance.Run)
    requires Kept(st) && PlainRun(r) && Begun(h, st, id, r).Some?
    ensures Kept(Begun(h, st, id, r).value)
  {
    ReadMakesEntry(h, EntriesOf(st.text).value, FindCase(CASES, r.caseName).value, r);
  }

  lemma RowsMore(rows: seq<Value>, runs: seq<Acceptance.Run>, row: Value, r: Acceptance.Run)
    requires |rows| == |runs| && RunRow(row, r) && forall i :: 0 <= i < |runs| ==> RunRow(rows[i], runs[i])
    ensures forall i :: 0 <= i < |runs + [r]| ==> RunRow((rows + [row])[i], (runs + [r])[i])
  {
  }

  lemma WriteKeepsLog(h: Hash, text: string, runs: seq<Acceptance.Run>, entry: seq<Field>, r: Acceptance.Run)
    requires Logged(text, runs) && EntryGood(entry, r)
    ensures Logged(text + LineOf(entry), runs + [r])
  {
    var rows := EntriesOf(text).value;
    FileRoundTrip(text, entry);
    LastRowReadable(h, rows, RowOf(entry));
    RowsMore(rows, runs, RowOf(entry), r);
  }

  lemma JobChanged(runs: seq<Acceptance.Run>, jobs: map<nat, Job>, id: nat, job: Job)
    requires JobsInv(runs, jobs) && JobInv(runs, job)
    ensures JobsInv(runs, jobs[id := job])
  {
  }

  lemma WrittenJob(runs: seq<Acceptance.Run>, job: Job)
    requires JobInv(runs, job) && job.run in runs
    ensures JobInv(runs, job.(stage := if Queries(job.c, job.run) then Checking(0) else Over))
  {
  }

  lemma WriteKeeps(h: Hash, st: Shared, id: nat)
    requires Kept(st) && Next(h, st, WriteLine(id)).Some?
    ensures Kept(Next(h, st, WriteLine(id)).value)
  {
    var job := st.jobs[id];
    var runs := st.runs + [job.run];
    assert JobInv(st.runs, job);
    WriteKeepsLog(h, st.text, st.runs, job.stage.entry, job.run);
    RunsMore(st.runs, job.run, st.jobs, st.manifest);
    assert runs[|st.runs|] == job.run;
    WrittenJob(runs, job);
    JobChanged(runs, st.jobs, id, job.(stage := if Queries(job.c, job.run) then Checking(0) else Over));
  }

  lemma QueryMeans(text: string, runs: seq<Acceptance.Run>, need: Requirement, artifact: PyString)
    requires Logged(text, runs) && |runs| > 0
    ensures QueryFinds(text, need, artifact) <==> Backed(runs, need, artifact)
  {
    FoundIffSupported(EntriesOf(text).value, runs, need, artifact);
  }

  lemma OneMoreBacked(runs: seq<Acceptance.Run>, needs: seq<Requirement>, n: nat, artifact: PyString)
    requires BackedUpTo(runs, needs, n, artifact) && (n < |needs| ==> Backed(runs, needs[n], artifact))
    ensures BackedUpTo(runs, needs, n + 1, artifact)
  {
  }

  lemma RecordIsJustified(runs: seq<Acceptance.Run>, job: Job)
    requires JobInv(runs, job) && job.stage.Checking? && job.stage.passed >= |Needs(job.c)| && job.run.evidenceFiles > 0
    ensures Justifies(runs, job.run, job.c.manifestCase.value)
  {
    VerdictMeans(job.run);
  }

  lemma GuardedJob(h: Hash, text: string, runs: seq<Acceptance.Run>, job: Job)
    requires Logged(text, runs) && JobInv(runs, job) && job.stage.Checking?
    ensures JobInv(runs, job.(stage := StageAfter(h, text, job)))
  {
    var needs, n := Needs(job.c), job.stage.passed;
    if n < |needs| {
      QueryMeans(text, runs, needs[n], job.run.artifact);
    }
    if StageAfter(h, text, job).Checking? {
      OneMoreBacked(runs, needs, n, job.run.artifact);
    }
  }

  lemma GuardKeeps(h: Hash, st: Shared, id: nat)
    requires Kept(st) && id in st.jobs && st.jobs[id].stage.Checking?
    ensures Kept(Guarded(h, st, id))
  {
    var job := st.jobs[id];
    assert JobInv(st.runs, job);
    GuardedJob(h, st.text, st.runs, job);
    JobChanged(st.runs, st.jobs, id, job.(stage := StageAfter(h, st.text, job)));
    if Records(job) {
      RecordIsJustified(st.runs, job);
      RecordAdded(st.runs, st.manifest, job.c.manifestCase.value, job.run);
    }
  }

  lemma RecordAdded(runs: seq<Acceptance.Run>, manifest: map<string, Acceptance.Run>, m: string, r: Acceptance.Run)
    requires RecordsInv(runs, manifest) && Justifies(runs, r, m)
    ensures RecordsInv(runs, manifest[m := r])
  {
  }

  // ---- main result ---------------------------------------------------------------------------

  predicate PlainActs(acts: seq<Act>) {
    forall i :: 0 <= i < |acts| && acts[i].ReadLedger? ==> PlainRun(acts[i].run)
  }

  lemma {:induction false} AlwaysKept(h: Hash, acts: seq<Act>)
    requires PlainActs(acts) && AfterActs(h, acts).Some?
    ensures Kept(AfterActs(h, acts).value)
  {
    if |acts| > 0 {
      var init, last := acts[..|acts| - 1], acts[|acts| - 1];
      AlwaysKept(h, init);
      var st := AfterActs(h, init).value;
      match last
      case ReadLedger(id, r) => BegunKeeps(h, st, id, r);
      case WriteLine(id) => WriteKeeps(h, st, id);
      case Guard(id) => GuardKeeps(h, st, id);
    }
  }

  /**
   Over every interleaving of any number of harness runs: whatever stands in the
   manifest was put there for a passing run whose row is in the ledger, with
   evidence, and every run the case requires has passed on the same artifact and
   has its row there too, although the ledger may have been broken meanwhile.
   */
  lemma RecordsAreJustified(h: Hash, acts: seq<Act>, m: string)
    requires PlainActs(acts) && AfterActs(h, acts).Some? && m in AfterActs(h, acts).value.manifest
    ensures var st := AfterActs(h, acts).value;
      && Justifies(st.runs, st.manifest[m], m)
      && EntriesOf(st.text).Ok? && |EntriesOf(st.text).value| == |st.runs|
      && forall i :: 0 <= i < |st.runs| ==> RunRow(EntriesOf(st.text).value[i], st.runs[i])
  {
    AlwaysKept(h, acts);
  }

  // ---- left alone, a run decides as `record()` does -------------------------------------------

  /** The guards from the `n`-th on, one after the other with nothing written in between, end in a record. */
  predicate GoesThrough(h: Hash, text: string, job: Job, n: nat)
    decreases if n <= |Needs(job.c)| then |Needs(job.c)| + 1 - n else 0
  {
    if n <= |Needs(job.c)| then Passes(h, text, job, n) && GoesThrough(h, text, job, n + 1)
    else Records(job.(stage := Checking(n)))
  }

  /** That is what the steps do. */
  lemma GuardStep(h: Hash, text: string, job: Job)
    requires job.stage.Checking?
    ensures GoesThrough(h, text, job, job.stage.passed)
      <==>
        Records(job)
        || (StageAfter(h, text, job).Checking? && GoesThrough(h, text, job, StageAfter(h, text, job).passed))
  {
    assert job.(stage := Checking(job.stage.passed)) == job;
  }

  lemma RunLedger(h: Hash, w: World, c: Case, r: Acceptance.Run, entry: Result<seq<Field>>)
    requires FindCase(CASES, r.caseName) == Some(c) && EntriesOf(w.ledger).Ok?
    requires entry == EntryFor(h, Payload(c, r), EntriesOf(w.ledger).value, r.now)
    ensures var after := RunStep(h, w, r).world;
      if r.sidecarAgrees == Some(false) || r.aborts || entry.Err? then after == w
      else after.ledger == w.ledger + LineOf(entry.value) && after.runs == w.runs + [r]
  {
    if r.sidecarAgrees == Some(false) || r.aborts {
      StepStops(h, w, c, r);
    } else if entry.Ok? {
      StepFinishes(h, w, c, r, entry.value);
      FinishWrites(h, w.(ledger := w.ledger + LineOf(entry.value), runs := w.runs + [r]), c, r);
    }
  }

  lemma NoRunLedger(h: Hash, w: World, r: Acceptance.Run)
    requires FindCase(CASES, r.caseName).None? || EntriesOf(w.ledger).Err?
    ensures RunStep(h, w, r).world == w
  {
  }

  lemma BegunIs(h: Hash, st: Shared, id: nat, c: Case, r: Acceptance.Run, entry: Result<seq<Field>>)
    requires id !in st.jobs && FindCase(CASES, r.caseName) == Some(c) && EntriesOf(st.text).Ok?
    requires entry == EntryFor(h, Payload(c, r), EntriesOf(st.text).value, r.now)
    ensures Next(h, st, ReadLedger(id, r)) ==
      if r.sidecarAgrees == Some(false) || r.aborts || entry.Err? then None
      else Some(st.(jobs := st.jobs[id := Job(r, c, Holding(entry.value))]))
  {
  }

  lemma WrittenIs(h: Hash, st: Shared, id: nat, job: Job)
    requires id in st.jobs && st.jobs[id] == job && job.stage.Holding?
    ensures Next(h, st, WriteLine(id)).Some?
    ensures var written := Next(h, st, WriteLine(id)).value;
      && written.text == st.text + LineOf(job.stage.entry) && written.runs == st.runs + [job.run]
      && written.manifest == st.manifest && id in written.jobs
      && written.jobs[id] == job.(stage := if Queries(job.c, job.run) then Checking(0) else Over)
  {
  }

  /** What the read and the write of a run leave, if it gets that far. */
  lemma ReadAndWrite(h: Hash, st: Shared, id: nat, c: Case, r: Acceptance.Run, entry: Result<seq<Field>>)
    requires id !in st.jobs && FindCase(CASES, r.caseName) == Some(c) && EntriesOf(st.text).Ok?
    requires entry == EntryFor(h, Payload(c, r), EntriesOf(st.text).value, r.now)
    ensures var begun := Next(h, st, ReadLedger(id, r));
      && (begun.None? <==> r.sidecarAgrees == Some(false) || r.aborts || entry.Err?)
      && (begun.Some? ==>
            var written := Next(h, begun.value, WriteLine(id));
            written.Some? && written.value.text == st.text + LineOf(entry.value) && written.value.runs == st.runs + [r])
  {
    BegunIs(h, st, id, c, r, entry);
    var begun := Next(h, st, ReadLedger(id, r));
    if begun.Some? {
      WrittenIs(h, begun.value, id, Job(r, c, Holding(entry.value)));
    }
  }

  /**
   A read and a write that nothing interrupts do to the ledger what the run does,
   and a run that does not get to its row takes no step.
   */
  lemma AloneIsRun(h: Hash, st: Shared, id: nat, r: Acceptance.Run)
    requires id !in st.jobs
    ensures var after := RunStep(h, World(st.text, st.manifest, st.runs), r).world;
            var begun := Next(h, st, ReadLedger(id, r));
      && (begun.None? <==> after.ledger == st.text)
      && (begun.Some? ==>
            var written := Next(h, begun.value, WriteLine(id));
            written.Some? && written.value.text == after.ledger && written.value.runs == after.runs)
  {
    var w, found := World(st.text, st.manifest, st.runs), FindCase(CASES, r.caseName);
    if found.None? || EntriesOf(st.text).Err? {
      NoRunLedger(h, w, r);
    } else {
      var entry := EntryFor(h, Payload(found.value, r), EntriesOf(st.text).value, r.now);
      RunLedger(h, w, found.value, r, entry);
      ReadAndWrite(h, st, id, found.value, r, entry);
      assert entry.Ok? ==> |LineOf(entry.value)| > 0;
    }
  }

  predicate AllFound(text: string, needs: seq<Requirement>, n: nat, artifact: PyString) {
    forall i :: n <= i < |needs| ==> QueryFinds(text, needs[i], artifact)
  }

  predicate PassesFrom(h: Hash, text: string, job: Job, n: nat) {
    forall i :: n <= i <= |Needs(job.c)| ==> Passes(h, text, job, i)
  }

  lemma PassesStep(h: Hash, text: string, job: Job, n: nat)
    requires n <= |Needs(job.c)|
    ensures PassesFrom(h, text, job, n) <==> Passes(h, text, job, n) && PassesFrom(h, text, job, n + 1)
  {
  }

  lemma {:induction false} GoesThroughIff(h: Hash, text: string, job: Job, n: nat)
    requires n <= |Needs(job.c)| + 1 && job.c.manifestCase.Some?
    ensures GoesThrough(h, text, job, n)
       <==> PassesFrom(h, text, job, n) && job.run.evidenceFiles > 0 && job.run.recorderAccepts
    decreases |Needs(job.c)| + 1 - n
  {
    if n <= |Needs(job.c)| {
      PassesStep(h, text, job, n);
      GoesThroughIff(h, text, job, n + 1);
    }
  }

  lemma PassesMeans(h: Hash, text: string, job: Job)
    ensures PassesFrom(h, text, job, 0) <==> AllFound(text, Needs(job.c), 0, job.run.artifact) && Intact(h, text)
  {
    if PassesFrom(h, text, job, 0) {
      assert Passes(h, text, job, |Needs(job.c)|);
      forall i | 0 <= i < |Needs(job.c)|
        ensures QueryFinds(text, Needs(job.c)[i], job.run.artifact)
      {
        assert Passes(h, text, job, i);
      }
    }
  }

  lemma {:induction false} MetIff(text: string, needs: seq<Requirement>, artifact: PyString)
    requires EntriesOf(text).Ok?
    ensures RequirementsMet(EntriesOf(text).value, needs, artifact) == Ok(true) <==> AllFound(text, needs, 0, artifact)
  {
    if |needs| > 0 {
      MetIff(text, needs[1..], artifact);
      assert AllFound(text, needs, 0, artifact)
          <==> QueryFinds(text, needs[0], artifact) && AllFound(text, needs[1..], 0, artifact) by {
        assert forall i :: 0 < i < |needs| ==> needs[i] == needs[1..][i - 1];
      }
    }
  }

  lemma FoundInBoth(text: string, a: seq<Requirement>, b: seq<Requirement>, artifact: PyString)
    ensures AllFound(text, a + b, 0, artifact) <==> AllFound(text, a, 0, artifact) && AllFound(text, b, 0, artifact)
  {
    if AllFound(text, a + b, 0, artifact) {
      assert forall i :: 0 <= i < |a| ==> a[i] == (a + b)[i];
      assert forall i :: 0 <= i < |b| ==> b[i] == (a + b)[|a| + i];
    }
  }

  lemma RestDecided(h: Hash, text: string, c: Case, r: Acceptance.Run)
    requires EntriesOf(text).Ok?
    ensures DecideCompanions(h, EntriesOf(text).value, c, r) == Recorded
       <==> && RequirementsMet(EntriesOf(text).value, AsRequirements(c.companions), r.artifact) == Ok(true)
            && Intact(h, text) && r.evidenceFiles > 0 && r.recorderAccepts
  {
  }

  lemma DecidedInTwo(h: Hash, text: string, c: Case, r: Acceptance.Run)
    requires Queries(c, r)
    ensures Decide(h, EntriesOf(text), c, r) == Recorded <==>
      && EntriesOf(text).Ok?
      && RequirementsMet(EntriesOf(text).value, c.requiredRuns, r.artifact) == Ok(true)
      && DecideCompanions(h, EntriesOf(text).value, c, r) == Recorded
  {
  }

  /** A run that nothing interrupts is recorded exactly when `record()` decides so on the ledger after its line. */
  lemma AloneIsDecide(h: Hash, text: string, c: Case, r: Acceptance.Run)
    requires Queries(c, r)
    ensures GoesThrough(h, text, Job(r, c, Checking(0)), 0) <==> Decide(h, EntriesOf(text), c, r) == Recorded
  {
    GoesThroughIff(h, text, Job(r, c, Checking(0)), 0);
    PassesMeans(h, text, Job(r, c, Checking(0)));
    DecidedInTwo(h, text, c, r);
    if EntriesOf(text).Ok? {
      FoundInBoth(text, c.requiredRuns, AsRequirements(c.companions), r.artifact);
      MetIff(text, c.requiredRuns, r.artifact);
      MetIff(text, AsRequirements(c.companions), r.artifact);
      RestDecided(h, text, c, r);
    }
  }

  /** The state when run `id` has taken all its guard steps, with nothing in between. */
  function Finished(h: Hash, st: Shared, id: nat): Shared
    requires id in st.jobs
    decreases if !st.jobs[id].stage.Checking? then 0
              else if st.jobs[id].stage.passed <= |Needs(st.jobs[id].c)| + 1
              then |Needs(st.jobs[id].c)| + 3 - st.jobs[id].stage.passed else 1
  {
    if st.jobs[id].stage.Checking? then Finished(h, Guarded(h, st, id), id) else st
  }

  lemma {:induction false} FinishedRecords(h: Hash, st: Shared, id: nat)
    requires id in st.jobs && st.jobs[id].stage.Checking? && st.jobs[id].c.manifestCase.Some?
    ensures var job := st.jobs[id];
      Finished(h, st, id).manifest ==
        if GoesThrough(h, st.text, job, job.stage.passed) then st.manifest[job.c.manifestCase.value := job.run]
        else st.manifest
    decreases if st.jobs[id].stage.passed <= |Needs(st.jobs[id].c)| + 1
              then |Needs(st.jobs[id].c)| + 3 - st.jobs[id].stage.passed else 1
  {
    var job, next := st.jobs[id], Guarded(h, st, id);
    GuardStep(h, st.text, job);
    assert next.jobs[id] == job.(stage := StageAfter(h, st.text, job)) && next.text == st.text;
    if next.jobs[id].stage.Checking? {
      FinishedRecords(h, next, id);
      StageDoesNotMatter(h, st.text, job, next.jobs[id].stage, next.jobs[id].stage.passed);
    }
  }

  lemma PassesSame(h: Hash, text: string, job: Job, other: Job, n: nat)
    requires other.c == job.c && other.run == job.run
    ensures Passes(h, text, other, n) <==> Passes(h, text, job, n)
  {
  }

  lemma {:induction false} StageDoesNotMatter(h: Hash, text: string, job: Job, stage: Stage, n: nat)
    ensures GoesThrough(h, text, job.(stage := stage), n) <==> GoesThrough(h, text, job, n)
    decreases if n <= |Needs(job.c)| then |Needs(job.c)| + 1 - n else 0
  {
    var other := job.(stage := stage);
    if n <= |Needs(job.c)| {
      StageDoesNotMatter(h, text, job, stage, n + 1);
      PassesSame(h, text, job, other, n);
    } else {
      assert other.(stage := Checking(n)) == job.(stage := Checking(n));
    }
  }

  lemma NoQueryNoRecord(h: Hash, rows: Result<seq<Value>>, c: Case, r: Acceptance.Run)
    requires !Queries(c, r)
    ensures !r.record || Decide(h, rows, c, r) != Recorded
  {
  }

  lemma RunManifest(h: Hash, w: World, c: Case, r: Acceptance.Run, entry: seq<Field>)
    requires FindCase(CASES, r.caseName) == Some(c) && r.sidecarAgrees != Some(false) && !r.aborts
    requires EntriesOf(w.ledger).Ok? && EntryFor(h, Payload(c, r), EntriesOf(w.ledger).value, r.now) == Ok(entry)
    ensures RunStep(h, w, r).world.manifest ==
      if r.record && Decide(h, EntriesOf(w.ledger + LineOf(entry)), c, r) == Recorded
      then w.manifest[c.manifestCase.value := r] else w.manifest
  {
    StepFinishes(h, w, c, r, entry);
    FinishWrites(h, w.(ledger := w.ledger + LineOf(entry), runs := w.runs + [r]), c, r);
  }

  /** Guard steps with nothing in between do what `record()` does on the ledger as it stands. */
  lemma GuardsDecide(h: Hash, st: Shared, id: nat, c: Case, r: Acceptance.Run)
    requires id in st.jobs && st.jobs[id] == Job(r, c, if Queries(c, r) then Checking(0) else Over)
    ensures Finished(h, st, id).manifest ==
      if r.record && Decide(h, EntriesOf(st.text), c, r) == Recorded then st.manifest[c.manifestCase.value := r]
      else st.manifest
  {
    if Queries(c, r) {
      AloneIsDecide(h, st.text, c, r);
      FinishedRecords(h, st, id);
    } else {
      NoQueryNoRecord(h, EntriesOf(st.text), c, r);
    }
  }

  /** A run that nothing interrupts does to the manifest what the run in one go does. */
  lemma AloneRecords(h: Hash, st: Shared, id: nat, r: Acceptance.Run)
    requires id !in st.jobs && Next(h, st, ReadLedger(id, r)).Some?
    ensures var written := Next(h, Next(h, st, ReadLedger(id, r)).value, WriteLine(id));
      && written.Some? && id in written.value.jobs
      && Finished(h, written.value, id).manifest
           == RunStep(h, World(st.text, st.manifest, st.runs), r).world.manifest
  {
    var c := FindCase(CASES, r.caseName).value;
    var entry := EntryFor(h, Payload(c, r), EntriesOf(st.text).value, r.now);
    var begun := Next(h, st, ReadLedger(id, r)).value;
    BegunIs(h, st, id, c, r, entry);
    WrittenIs(h, begun, id, Job(r, c, Holding(entry.value)));
    RunManifest(h, World(st.text, st.manifest, st.runs), c, r, entry.value);
    GuardsDecide(h, Next(h, begun, WriteLine(id)).value, id, c, r);
  }
}
