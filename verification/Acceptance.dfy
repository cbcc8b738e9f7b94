/**
 The acceptance harness: a run is executed, gets a verdict, appends its ledger
 row, and only then may be recorded in the release manifest.
 */
module Acceptance {
  import opened Outcomes
  import opened Json
  import opened Ledgers

  // ---- cases ------------------------------------------------------------------

  /** What a case asks of the ledger: a passed run of another case, under one firmware if it says so. */
  datatype Requirement = Requirement(name: string, firmware: Option<string>)

  datatype Case = Case(
    name: string,
    manifestCase: Option<string>,
    manifestGap: bool,
    companions: seq<string>,
    requiredRuns: seq<Requirement>)

  const CASES: seq<Case> := [
    Case("live-boot", None, false, [], []),
    Case("install", Some("INSTALL-01"), true, [], []),
    Case("install-both-firmwares", Some("INSTALL-01"), false, [],
         [Requirement("install", Some("bios")), Requirement("install", Some("uefi"))]),
    Case("upgrade", Some("UPGRADE-01"), true, [], []),
    Case("recovery", Some("RECOVERY-01"), true, ["recovery-interrupted"], []),
    Case("recovery-project", Some("RECOVERY-01"), false, [],
         [Requirement("recovery", None), Requirement("recovery-interrupted", None)]),
    Case("recovery-interrupted", None, false, [], [])
  ]

  /** `CASES.get(name)`. */
  function FindCase(cases: seq<Case>, name: string): (r: Option<Case>)
    ensures r.Some? ==> r.value in cases && r.value.name == name
    ensures r.None? ==> forall c :: c in cases ==> c.name != name
  {
    if |cases| == 0 then None
    else if cases[0].name == name then Some(cases[0])
    else FindCase(cases[1..], name)
  }

  // ---- runs -------------------------------------------------------------------

  datatype Verdict = PASS | FAIL | BLOCKED | ERROR

  /** How the case function came back. */
  datatype Ending = Finished | RaisedBlocked | RaisedOther

  /** Everything about one invocation of the run command that its own code does not decide. */
  datatype Run = Run(
    caseName: string,
    firmware: string,
    artifact: PyString,       // digest of the image under test
    sidecarAgrees: Option<bool>,
    checks: seq<bool>,        // one per evaluated check; false is FAILED
    ending: Ending,
    evidenceFiles: nat,
    record: bool,
    recorderAccepts: bool,
    aborts: bool,             // the run directory exists, or the transcript is refused as evidence
    runId: PyString,
    harness: PyString,
    receiptSha: PyString,
    receiptPath: PyString,
    now: PyString)

  function VerdictOfChecks(checks: seq<bool>): Verdict {
    if |checks| == 0 then BLOCKED
    else if false in checks then FAIL
    else PASS
  }

  /** A failed check outranks a block or a crash. */
  function VerdictOf(r: Run): Verdict {
    var first := match r.ending
                 case Finished => VerdictOfChecks(r.checks)
                 case RaisedBlocked => BLOCKED
                 case RaisedOther => ERROR;
    if (first == BLOCKED || first == ERROR) && false in r.checks then FAIL else first
  }

  function VerdictName(v: Verdict): string {
    match v
    case PASS => "PASS"
    case FAIL => "FAIL"
    case BLOCKED => "BLOCKED"
    case ERROR => "ERROR"
  }

  function ExitCode(v: Verdict): int {
    match v
    case PASS => 0
    case FAIL => 1
    case BLOCKED => 3
    case ERROR => 2
  }

  const K_RUN := Py("run_id")
  const K_CASE := Py("case")
  const K_MANIFEST := Py("manifest_case")
  const K_VERDICT := Py("verdict")
  const K_FIRMWARE := Py("firmware")
  const K_ARTIFACT := Py("artifact_sha256")
  const K_HARNESS := Py("harness_digest")
  const K_RECEIPT := Py("receipt_sha256")
  const K_PATH := Py("receipt_path")
  const K_EVIDENCE := Py("evidence_count")

  /** What the run command hands to the ledger. */
  function Payload(c: Case, r: Run): seq<Field> {
    [ Field(K_RUN, Str(r.runId)),
      Field(K_CASE, Str(Py(c.name))),
      Field(K_MANIFEST, if c.manifestCase.Some? then Str(Py(c.manifestCase.value)) else Null),
      Field(K_VERDICT, Str(Py(VerdictName(VerdictOf(r))))),
      Field(K_FIRMWARE, Str(Py(r.firmware))),
      Field(K_ARTIFACT, Str(r.artifact)),
      Field(K_HARNESS, Str(r.harness)),
      Field(K_RECEIPT, Str(r.receiptSha)),
      Field(K_PATH, Str(r.receiptPath)),
      Field(K_EVIDENCE, Int(r.evidenceFiles)) ]
  }

  // ---- the guards before a manifest write -----------------------------------------

  function PassedCriteria(name: string, firmware: Option<string>, artifact: PyString): seq<Field> {
    [Field(K_CASE, Str(Py(name)))]
    + (if firmware.Some? then [Field(K_FIRMWARE, Str(Py(firmware.value)))] else [])
    + [Field(K_VERDICT, Str(Py("PASS"))), Field(K_ARTIFACT, Str(artifact))]
  }

  /** `bool(ledger.find(...))` for each requirement in turn; the first that finds nothing stops it. */
  function RequirementsMet(rows: seq<Value>, needs: seq<Requirement>, artifact: PyString): Result<bool> {
    if |needs| == 0 then Ok(true)
    else
      var found :- Matching(rows, PassedCriteria(needs[0].name, needs[0].firmware, artifact));
      if |found| == 0 then Ok(false) else RequirementsMet(rows, needs[1..], artifact)
  }

  /** Companions are requirements that pin nothing but the case. */
  function AsRequirements(companions: seq<string>): (r: seq<Requirement>)
    ensures |r| == |companions| && forall i :: 0 <= i < |r| ==> r[i] == Requirement(companions[i], None)
  {
    if |companions| == 0 then [] else [Requirement(companions[0], None)] + AsRequirements(companions[1..])
  }

  datatype Decision = Recorded | NotRecorded(code: int) | Raised

  function Decide(h: Hash, rows: Result<seq<Value>>, c: Case, r: Run): Decision {
    if VerdictOf(r) != PASS then NotRecorded(0)
    else if c.manifestCase.None? || c.manifestCase.value == "" then NotRecorded(0)
    else if c.manifestGap then NotRecorded(0)
    else if rows.Err? then Raised
    else
      match RequirementsMet(rows.value, c.requiredRuns, r.artifact)
      case Err(_) => Raised
      case Ok(met) =>
        if !met then NotRecorded(3)
        else DecideCompanions(h, rows.value, c, r)
  }

  function DecideCompanions(h: Hash, rows: seq<Value>, c: Case, r: Run): Decision {
    match RequirementsMet(rows, AsRequirements(c.companions), r.artifact)
    case Err(_) => Raised
    case Ok(met) =>
      if !met then NotRecorded(3)
      else
        match ProblemsFrom(h, rows, Str(GENESIS))
        case Err(_) => Raised
        case Ok(problems) =>
          if |problems| > 0 then NotRecorded(2)
          else if r.evidenceFiles == 0 then NotRecorded(2)
          else if !r.recorderAccepts then NotRecorded(2)
          else Recorded
  }

  // ---- one run ---------------------------------------------------------------------

  /** `runs` lists the runs that reached the ledger, in order; it is bookkeeping, not harness state. */
  datatype World = World(ledger: string, manifest: map<string, Run>, runs: seq<Run>)

  /** The exit code, or None when an exception leaves the command. */
  datatype Step = Step(world: World, exit: Option<int>)

  function RunStep(h: Hash, w: World, r: Run): Step {
    match FindCase(CASES, r.caseName)
    case None => Step(w, Some(2))
    case Some(c) => RunCase(h, w, c, r)
  }

  function RunCase(h: Hash, w: World, c: Case, r: Run): Step {
    if r.sidecarAgrees == Some(false) then Step(w, Some(2))
    else if r.aborts || EntriesOf(w.ledger).Err? then Step(w, None)
    else
      match EntryFor(h, Payload(c, r), EntriesOf(w.ledger).value, r.now)
      case Err(_) => Step(w, None)
      case Ok(entry) => Finish(h, w.(ledger := w.ledger + LineOf(entry), runs := w.runs + [r]), c, r)
  }

  function Finish(h: Hash, w: World, c: Case, r: Run): Step {
    var code := ExitCode(VerdictOf(r));
    if !r.record then Step(w, Some(code))
    else
      match Decide(h, EntriesOf(w.ledger), c, r)
      case Raised => Step(w, None)
      case NotRecorded(refused) => Step(w, Some(if refused != 0 then refused else code))
      case Recorded => Step(w.(manifest := w.manifest[c.manifestCase.value := r]), Some(code))
  }

  /** The world after a whole sequence of runs. */
  function RunAll(h: Hash, w: World, rs: seq<Run>): World {
    if |rs| == 0 then w else RunStep(h, RunAll(h, w, rs[..|rs| - 1]), rs[|rs| - 1]).world
  }

  // ---- the harness object -----------------------------------------------------------

  class Harness {
    const ledger: Ledger
    var manifest: map<string, Run>
    ghost var runs: seq<Run>

    constructor (ledger: Ledger)
      ensures this.ledger == ledger && manifest == map[] && runs == []
    {
      this.ledger := ledger;
      manifest := map[];
      runs := [];
    }

    ghost function Now(): World
      reads this, ledger
    {
      World(ledger.text, manifest, runs)
    }

    method Met(needs: seq<Requirement>, artifact: PyString) returns (r: Result<bool>)
      ensures r == if |needs| == 0 then Ok(true)
                   else if EntriesOf(ledger.text).Err? then Err(EntriesOf(ledger.text).reason)
                   else RequirementsMet(EntriesOf(ledger.text).value, needs, artifact)
    {
      assert needs[0..] == needs;
      for i := 0 to |needs|
        invariant i > 0 ==> EntriesOf(ledger.text).Ok?
        invariant EntriesOf(ledger.text).Ok? ==>
          RequirementsMet(EntriesOf(ledger.text).value, needs, artifact)
          == RequirementsMet(EntriesOf(ledger.text).value, needs[i..], artifact)
      {
        assert needs[i..][0] == needs[i] && needs[i..][1..] == needs[i + 1..];
        var found :- ledger.Find(PassedCriteria(needs[i].name, needs[i].firmware, artifact));
        if |found| == 0 {
          return Ok(false);
        }
      }
      return Ok(true);
    }

    /** The guards behind the required runs. */
    method CheckRest(c: Case, r: Run) returns (d: Decision)
      ensures d == if EntriesOf(ledger.text).Err? then Raised
                   else DecideCompanions(ledger.digest, EntriesOf(ledger.text).value, c, r)
    {
      var companions := Met(AsRequirements(c.companions), r.artifact);
      if companions.Err? {
        return Raised;
      }
      if !companions.value {
        return NotRecorded(3);
      }
      var problems := ledger.Verify();
      if problems.Err? {
        return Raised;
      }
      if |problems.value| > 0 {
        return NotRecorded(2);
      }
      if r.evidenceFiles == 0 {
        return NotRecorded(2);
      }
      if !r.recorderAccepts {
        return NotRecorded(2);
      }
      return Recorded;
    }

    /** Reads the ledger again at every guard; records nothing unless all of them pass. */
    method Record(c: Case, r: Run) returns (d: Decision)
      modifies this`manifest
      ensures d == Decide(ledger.digest, EntriesOf(ledger.text), c, r)
      ensures manifest == if d.Recorded? then old(manifest)[c.manifestCase.value := r] else old(manifest)
    {
      if VerdictOf(r) != PASS {
        return NotRecorded(0);
      }
      if c.manifestCase.None? || c.manifestCase.value == "" {
        return NotRecorded(0);
      }
      if c.manifestGap {
        return NotRecorded(0);
      }
      var required := Met(c.requiredRuns, r.artifact);
      if required.Err? {
        return Raised;
      }
      if !required.value {
        return NotRecorded(3);
      }
      d := CheckRest(c, r);
      if d.Recorded? {
        manifest := manifest[c.manifestCase.value := r];
      }
    }

    method Execute(c: Case, r: Run) returns (exit: Option<int>)
      modifies this, ledger
      ensures Step(Now(), exit) == RunCase(ledger.digest, old(Now()), c, r)
    {
      if r.sidecarAgrees == Some(false) {
        return Some(2);
      }
      if r.aborts {
        return None;
      }
      var entry := ledger.Append(Payload(c, r), r.now);
      if entry.Err? {
        return None;
      }
      runs := runs + [r];
      if r.record {
        var d := Record(c, r);
        if d.Raised? {
          return None;
        }
        if d.NotRecorded? && d.code != 0 {
          return Some(d.code);
        }
      }
      return Some(ExitCode(VerdictOf(r)));
    }

    method Run(r: Run) returns (exit: Option<int>)
      modifies this, ledger
      ensures Step(Now(), exit) == RunStep(ledger.digest, old(Now()), r)
    {
      var c := FindCase(CASES, r.caseName);
      if c.None? {
        return Some(2);
      }
      exit := Execute(c.value, r);
    }
  }
}
