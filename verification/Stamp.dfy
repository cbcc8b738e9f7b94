/**
 The version stamper: compute every new body, check every anchor, then replace
 the files one by one and put back what was replaced when one of them fails.
 */
module Stamp {
  import opened Outcomes

  /** A file that decodes as UTF-8 is its text; decoding is strict, so bytes and text determine each other. */
  datatype Content = Text(text: string) | NotUtf8(bytes: seq<bv8>)

  type Tree = map<string, Content>

  /** The range of a match's first capture group. */
  datatype Span = Span(start: nat, end: nat)

  /** A pattern, as the capture spans of all its matches in a body, in order. */
  type Anchor = a: string -> seq<Span> |
    forall body: string, i :: 0 <= i < |a(body)| ==> a(body)[i].start <= a(body)[i].end <= |body|
    witness (body: string) => []

  datatype Site = Site(rel: string, anchor: Anchor, title: string, hasGroup: bool)

  // ---- versions ---------------------------------------------------------------

  predicate IsDigit(c: char) { '0' <= c <= '9' }

  function DigitRun(s: string): (n: nat)
    ensures n <= |s|
  {
    if |s| > 0 && IsDigit(s[0]) then 1 + DigitRun(s[1..]) else 0
  }

  /** `[0-9]+\.[0-9]+\.[0-9]+`, the whole string. */
  predicate IsVersion(s: string) {
    var major := DigitRun(s);
    major > 0 && major < |s| && s[major] == '.' &&
    var rest := s[major + 1..];
    var minor := DigitRun(rest);
    minor > 0 && minor < |rest| && rest[minor] == '.' &&
    var patch := rest[minor + 1..];
    |patch| > 0 && DigitRun(patch) == |patch|
  }

  // ---- compute phase -----------------------------------------------------------

  /** `order` is the order in which the files were first met. */
  datatype Plan = Plan(
    order: seq<string>,
    bodies: map<string, string>,
    originals: map<string, string>,
    before: map<(string, string), string>)

  function Captured(anchor: Anchor, body: string): (r: seq<string>)
    ensures |r| == |anchor(body)|
    ensures forall i :: 0 <= i < |r| ==> r[i] == body[anchor(body)[i].start..anchor(body)[i].end]
  {
    seq(|anchor(body)|, i requires 0 <= i < |anchor(body)| => body[anchor(body)[i].start..anchor(body)[i].end])
  }

  /** Reading a file the first time one of its sites comes up. */
  function Load(p: Plan, rel: string, tree: Tree): Result<Plan> {
    if rel in p.bodies then Ok(p)
    else if rel !in tree then Err("unreadable")
    else
      match tree[rel]
      case NotUtf8(_) => Err("not valid UTF-8")
      case Text(text) =>
        Ok(p.(order := p.order + [rel], bodies := p.bodies[rel := text], originals := p.originals[rel := text]))
  }

  /** Replacing the one capture of a site's anchor. */
  function Rewrite(p: Plan, site: Site, version: string): Result<Plan>
    requires site.rel in p.bodies
  {
    var body := p.bodies[site.rel];
    var spans := site.anchor(body);
    if !site.hasGroup then Err("no capture group")
    else if |spans| != 1 then Err("anchor did not match exactly once")
    else
      Ok(p.(before := p.before[(site.rel, site.title) := body[spans[0].start..spans[0].end]],
            bodies := p.bodies[site.rel := body[..spans[0].start] + version + body[spans[0].end..]]))
  }

  function PlanSite(p: Plan, site: Site, version: string, tree: Tree): Result<Plan> {
    var loaded :- Load(p, site.rel, tree);
    if site.rel in loaded.bodies then Rewrite(loaded, site, version) else Err("unreadable")
  }

  /** The first pass over the sites. */
  function PlanSites(sites: seq<Site>, version: string, tree: Tree): Result<Plan> {
    if |sites| == 0 then Ok(Plan([], map[], map[], map[]))
    else
      var p :- PlanSites(sites[..|sites| - 1], version, tree);
      PlanSite(p, sites[|sites| - 1], version, tree)
  }

  predicate Reads(site: Site, bodies: map<string, string>, version: string) {
    site.rel in bodies && Captured(site.anchor, bodies[site.rel]) == [version]
  }

  /** Both passes: every site must read back exactly the new version. */
  function PlanOf(sites: seq<Site>, version: string, tree: Tree): Result<Plan> {
    if !IsVersion(version) then Err("version must be MAJOR.MINOR.PATCH")
    else
      var p :- PlanSites(sites, version, tree);
      if forall i :: 0 <= i < |sites| ==> Reads(sites[i], p.bodies, version) then Ok(p)
      else Err("a site does not read the new version back")
  }

  // ---- write phase --------------------------------------------------------------

  /** Whether an exception is an OSError; anything else is an interrupt or another exception. */
  datatype Kind = OsError | OtherError

  /**
   How one `_replace` comes back.  FailBefore: the rename did not happen.
   FailAfter: it did, and the exception says so.  Unflagged: it did, but the
   exception arrived before the block that marks it, as an interrupt right after
   `os.replace` does.  Unnoted: it returned, and an interrupt arrived before the
   caller took note.  Outside: an exception arrived before it was entered, between
   two files or behind the last, where `outstanding` can raise.
   */
  datatype Outcome = Done | FailBefore(kind: Kind) | FailAfter(kind: Kind) | Unflagged(kind: Kind) | Unnoted | Outside

  /** The file was renamed into place. */
  predicate Renames(o: Outcome) {
    !o.FailBefore? && !o.Outside?
  }

  /** The exception is raised where no handler of the stamper's sees it. */
  predicate Unhandled(o: Outcome) {
    o.Unnoted? || o.Outside?
  }

  /** The outcome of the n-th replacement of a run. */
  type Schedule = nat -> Outcome

  datatype Disk = Disk(files: Tree, clock: nat)

  function Replaced(schedule: Schedule, disk: Disk, rel: string, data: string): Disk {
    Disk(if Renames(schedule(disk.clock)) then disk.files[rel := Text(data)] else disk.files, disk.clock + 1)
  }

  /** What a rollback goes on after: success, or an OSError. */
  predicate GoesOn(o: Outcome) {
    o.Done? || (!Unhandled(o) && o.kind == OsError)
  }

  datatype Rollback = Rollback(disk: Disk, restored: seq<string>, failed: seq<string>, interrupted: bool)

  /** Puts the written files back, last first; only an OSError lets it go on to the next. */
  function RestoreAll(schedule: Schedule, disk: Disk, written: seq<string>, originals: map<string, string>): Rollback
    requires forall f :: f in written ==> f in originals
    decreases |written|
  {
    if |written| == 0 then Rollback(disk, [], [], false)
    else
      var rel, rest := written[|written| - 1], written[..|written| - 1];
      var next := Replaced(schedule, disk, rel, originals[rel]);
      if !GoesOn(schedule(disk.clock)) then Rollback(next, [], [], true)
      else
        var r := RestoreAll(schedule, next, rest, originals);
        if schedule(disk.clock).Done? then r.(restored := [rel] + r.restored) else r.(failed := [rel] + r.failed)
  }

  datatype Stamped =
    | Refused(reason: string)
    | Complete(disk: Disk, written: seq<string>, untouched: seq<string>)
    | RolledBack(disk: Disk, restored: seq<string>, failed: seq<string>)
    | Interrupted(disk: Disk)  // an exception leaves the command with no report

  function AfterFailure(schedule: Schedule, disk: Disk, written: seq<string>, originals: map<string, string>): Stamped
    requires forall f :: f in written ==> f in originals
  {
    var r := RestoreAll(schedule, disk, written, originals);
    if r.interrupted then Interrupted(r.disk) else RolledBack(r.disk, r.restored, r.failed)
  }

  predicate Covers(p: Plan, names: seq<string>) {
    forall f :: f in names ==> f in p.bodies && f in p.originals
  }

  function WriteAll(schedule: Schedule, disk: Disk, p: Plan, todo: seq<string>, written: seq<string>,
          untouched: seq<string>): Stamped
    requires Covers(p, todo) && Covers(p, written)
    decreases |todo|
  {
    if |todo| == 0 then Complete(disk, written, untouched)
    else
      var rel, rest := todo[0], todo[1..];
      if p.bodies[rel] == p.originals[rel] then WriteAll(schedule, disk, p, rest, written, untouched + [rel])
      else
        var next := Replaced(schedule, disk, rel, p.bodies[rel]);
        match schedule(disk.clock)
        case Done => WriteAll(schedule, next, p, rest, written + [rel], untouched)
        case FailAfter(_) => AfterFailure(schedule, next, written + [rel], p.originals)
        case Unnoted => Interrupted(next)
        case Outside => Interrupted(next)
        case _ => AfterFailure(schedule, next, written, p.originals)
  }

  /** The files of a plan: each met once, with the text it had in the tree. */
  ghost predicate PlanShape(p: Plan, tree: Tree) {
    && p.bodies.Keys == p.originals.Keys
    && (forall f :: f in p.order <==> f in p.bodies)
    && (forall i, j :: 0 <= i < j < |p.order| ==> p.order[i] != p.order[j])
    && (forall f :: f in p.originals ==> f in tree && tree[f] == Text(p.originals[f]))
  }

  function FilesOf(sites: seq<Site>): set<string> {
    set i | 0 <= i < |sites| :: sites[i].rel
  }

  lemma LoadShape(p: Plan, rel: string, tree: Tree)
    requires PlanShape(p, tree) && Load(p, rel, tree).Ok?
    ensures PlanShape(Load(p, rel, tree).value, tree)
    ensures Load(p, rel, tree).value.bodies.Keys == p.bodies.Keys + {rel}
  {
  }

  lemma RewriteShape(p: Plan, site: Site, version: string, tree: Tree)
    requires PlanShape(p, tree) && site.rel in p.bodies && Rewrite(p, site, version).Ok?
    ensures PlanShape(Rewrite(p, site, version).value, tree)
    ensures Rewrite(p, site, version).value.bodies.Keys == p.bodies.Keys
  {
  }

  lemma PlanSiteShape(p: Plan, site: Site, version: string, tree: Tree)
    requires PlanShape(p, tree) && PlanSite(p, site, version, tree).Ok?
    ensures PlanShape(PlanSite(p, site, version, tree).value, tree)
    ensures PlanSite(p, site, version, tree).value.bodies.Keys == p.bodies.Keys + {site.rel}
  {
    LoadShape(p, site.rel, tree);
    RewriteShape(Load(p, site.rel, tree).value, site, version, tree);
  }

  lemma {:induction false} PlanCovers(sites: seq<Site>, version: string, tree: Tree)
    requires PlanSites(sites, version, tree).Ok?
    ensures PlanShape(PlanSites(sites, version, tree).value, tree)
    ensures PlanSites(sites, version, tree).value.bodies.Keys == FilesOf(sites)
  {
    if |sites| > 0 {
      var init, last := sites[..|sites| - 1], sites[|sites| - 1];
      PlanCovers(init, version, tree);
      PlanSiteShape(PlanSites(init, version, tree).value, last, version, tree);
      FilesOfSnoc(sites);
    }
  }

  lemma FilesOfSnoc(sites: seq<Site>)
    requires |sites| > 0
    ensures FilesOf(sites) == FilesOf(sites[..|sites| - 1]) + {sites[|sites| - 1].rel}
  {
    var init := sites[..|sites| - 1];
    forall f | f in FilesOf(sites)
      ensures f in FilesOf(init) + {sites[|sites| - 1].rel}
    {
      var i :| 0 <= i < |sites| && sites[i].rel == f;
      assert i < |init| ==> init[i].rel == f;
    }
    forall f | f in FilesOf(init)
      ensures f in FilesOf(sites)
    {
      var i :| 0 <= i < |init| && init[i].rel == f;
      assert sites[i].rel == f;
    }
  }

  /** `outstanding`, called for the result after the last replacement, may raise. */
  function Reported(schedule: Schedule, r: Stamped): Stamped {
    if r.Complete? && schedule(r.disk.clock).Outside? then Interrupted(r.disk) else r
  }

  function StampAll(schedule: Schedule, disk: Disk, sites: seq<Site>, version: string): Stamped {
    match PlanOf(sites, version, disk.files)
    case Err(e) => Refused(e)
    case Ok(p) =>
      PlanCovers(sites, version, disk.files);
      Reported(schedule, WriteAll(schedule, disk, p, p.order, [], []))
  }

  /** A rollback with names in front of its lists. */
  function Grown(restored: seq<string>, failed: seq<string>, r: Rollback): Rollback {
    Rollback(r.disk, restored + r.restored, failed + r.failed, r.interrupted)
  }

  // ---- the stamper object ----------------------------------------------------------

  class Stamper {
    const schedule: Schedule
    var files: Tree
    var clock: nat

    constructor (schedule: Schedule, files: Tree)
      ensures this.schedule == schedule && this.files == files && clock == 0
    {
      this.schedule := schedule;
      this.files := files;
      clock := 0;
    }

    function State(): Disk
      reads this
    {
      Disk(files, clock)
    }

    method ComputePlan(sites: seq<Site>, version: string) returns (r: Result<Plan>)
      ensures r == PlanOf(sites, version, files)
    {
      if !IsVersion(version) {
        return Err("version must be MAJOR.MINOR.PATCH");
      }
      var p := Plan([], map[], map[], map[]);
      for n := 0 to |sites|
        invariant PlanSites(sites[..n], version, files) == Ok(p)
      {
        assert sites[..n + 1][..n] == sites[..n];
        var next := PlanSite(p, sites[n], version, files);
        if next.Err? {
          FailedPrefix(sites, n + 1, version, files);
          return Err(next.reason);
        }
        p := next.value;
      }
      assert sites[..|sites|] == sites;
      for n := 0 to |sites|
        invariant forall i :: 0 <= i < n ==> Reads(sites[i], p.bodies, version)
      {
        if sites[n].rel !in p.bodies || Captured(sites[n].anchor, p.bodies[sites[n].rel]) != [version] {
          return Err("a site does not read the new version back");
        }
      }
      return Ok(p);
    }

    method Replace(rel: string, data: string) returns (o: Outcome)
      modifies this
      ensures o == schedule(old(clock)) && State() == Replaced(schedule, old(State()), rel, data)
    {
      o := schedule(clock);
      clock := clock + 1;
      if Renames(o) {
        files := files[rel := Text(data)];
      }
    }

    method Restore(written: seq<string>, originals: map<string, string>)
      returns (restored: seq<string>, failed: seq<string>, interrupted: bool)
      requires forall f :: f in written ==> f in originals
      modifies this
      ensures Rollback(State(), restored, failed, interrupted) == RestoreAll(schedule, old(State()), written, originals)
    {
      restored, failed, interrupted := [], [], false;
      ghost var start := State();
      var n := |written|;
      assert written[..n] == written;
      while n > 0
        invariant 0 <= n <= |written|
        invariant RestoreAll(schedule, start, written, originals)
          == Grown(restored, failed, RestoreAll(schedule, State(), written[..n], originals))
      {
        n := n - 1;
        assert written[..n + 1][..n] == written[..n];
        ghost var r0, f0 := restored, failed;
        var o := Replace(written[n], originals[written[n]]);
        if o.Done? {
          restored := restored + [written[n]];
          GrownRestored(r0, f0, written[n], RestoreAll(schedule, State(), written[..n], originals));
        } else if GoesOn(o) {
          failed := failed + [written[n]];
          GrownFailed(r0, f0, written[n], RestoreAll(schedule, State(), written[..n], originals));
        } else {
          interrupted := true;
          assert restored + [] == restored && failed + [] == failed;
          return;
        }
      }
      assert restored + [] == restored && failed + [] == failed;
    }

    method Stamp(sites: seq<Site>, version: string) returns (r: Stamped)
      modifies this
      ensures r == StampAll(schedule, old(State()), sites, version)
      ensures State() == if r.Refused? then old(State()) else r.disk
    {
      var plan := ComputePlan(sites, version);
      if plan.Err? {
        return Refused(plan.reason);
      }
      PlanCovers(sites, version, files);
      r := Write(plan.value);
      if r.Complete? && schedule(clock).Outside? {
        r := Interrupted(State());
      }
    }

    /** The write phase: the files in order, rolled back when one of them fails. */
    method Write(p: Plan) returns (r: Stamped)
      requires Covers(p, p.order)
      modifies this
      ensures r == WriteAll(schedule, old(State()), p, p.order, [], [])
      ensures !r.Refused? && State() == r.disk
    {
      var written, untouched := [], [];
      ghost var start := State();
      assert p.order[0..] == p.order;
      for n := 0 to |p.order|
        invariant Covers(p, written)
        invariant WriteAll(schedule, start, p, p.order, [], [])
          == WriteAll(schedule, State(), p, p.order[n..], written, untouched)
      {
        var rel := p.order[n];
        assert p.order[n..][0] == rel && p.order[n..][1..] == p.order[n + 1..];
        if p.bodies[rel] == p.originals[rel] {
          untouched := untouched + [rel];
        } else {
          var o := Replace(rel, p.bodies[rel]);
          if o.Done? {
            written := written + [rel];
          } else if Unhandled(o) {
            return Interrupted(State());
          } else {
            if o.FailAfter? {
              written := written + [rel];
            }
            var restored, failed, interrupted := Restore(written, p.originals);
            return if interrupted then Interrupted(State()) else RolledBack(State(), restored, failed);
          }
        }
      }
      return Complete(State(), written, untouched);
    }
  }

  lemma GrownRestored(restored: seq<string>, failed: seq<string>, rel: string, r: Rollback)
    ensures Grown(restored, failed, r.(restored := [rel] + r.restored)) == Grown(restored + [rel], failed, r)
  {
    assert restored + ([rel] + r.restored) == restored + [rel] + r.restored;
  }

  lemma GrownFailed(restored: seq<string>, failed: seq<string>, rel: string, r: Rollback)
    ensures Grown(restored, failed, r.(failed := [rel] + r.failed)) == Grown(restored, failed + [rel], r)
  {
    assert failed + ([rel] + r.failed) == failed + [rel] + r.failed;
  }

  lemma {:induction false} FailedPrefix(sites: seq<Site>, n: nat, version: string, tree: Tree)
    requires n <= |sites| && PlanSites(sites[..n], version, tree).Err?
    ensures PlanSites(sites, version, tree) == PlanSites(sites[..n], version, tree)
    decreases |sites|
  {
    if n == |sites| {
      assert sites[..n] == sites;
    } else {
      assert sites[..|sites| - 1][..n] == sites[..n];
      FailedPrefix(sites[..|sites| - 1], n, version, tree);
    }
  }
}
