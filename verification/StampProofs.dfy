/** The stamper's promises: all of it or none of it, agreement with the gate, and idempotence. */
module StampProofs {
  import opened Outcomes
  import opened Stamp

  predicate Distinct(names: seq<string>) {
    forall i, j :: 0 <= i < j < |names| ==> names[i] != names[j]
  }

  /** Which outcomes leave the new file in place, and which let a rollback go on. */
  lemma OutcomesMean(o: Outcome)
    ensures Renames(o) <==> o.Done? || o.FailAfter? || o.Unflagged? || o.Unnoted?
    ensures GoesOn(o) <==> o in {Done, FailBefore(OsError), FailAfter(OsError), Unflagged(OsError)}
    ensures Unhandled(o) <==> o in {Unnoted, Outside}
  {
  }

  // ---- rolling back -----------------------------------------------------------------

  /** The rollback gets to its `j`-th restore. */
  predicate GetsTo(schedule: Schedule, clock: nat, j: nat) {
    forall t {:trigger GoesOn(schedule(t))} :: clock <= t < clock + j ==> GoesOn(schedule(t))
  }

  lemma GetsToNext(schedule: Schedule, clock: nat, j: nat)
    requires GoesOn(schedule(clock))
    ensures GetsTo(schedule, clock, j + 1) <==> GetsTo(schedule, clock + 1, j)
  {
  }

  /** The `j`-th restore is reached and does not fail before its rename. */
  predicate RestoreWorks(schedule: Schedule, clock: nat, j: nat) {
    GetsTo(schedule, clock, j) && Renames(schedule(clock + j))
  }

  /** A rollback is cut short exactly when one of its restores raises something that is not an OSError. */
  lemma {:induction false} RestoreInterrupted(schedule: Schedule, disk: Disk, written: seq<string>,
          originals: map<string, string>)
    requires forall g :: g in written ==> g in originals
    ensures RestoreAll(schedule, disk, written, originals).interrupted <==> !GetsTo(schedule, disk.clock, |written|)
    decreases |written|
  {
    if |written| > 0 && GoesOn(schedule(disk.clock)) {
      var rel, rest := written[|written| - 1], written[..|written| - 1];
      assert forall g :: g in rest ==> g in written;
      RestoreInterrupted(schedule, Replaced(schedule, disk, rel, originals[rel]), rest, originals);
      GetsToNext(schedule, disk.clock, |rest|);
    }
  }

  /** Files outside the list, and files the rollback does not get to, stay as they are. */
  lemma {:induction false} RestoreElsewhere(schedule: Schedule, disk: Disk, written: seq<string>,
          originals: map<string, string>, f: string)
    requires forall g :: g in written ==> g in originals
    requires f in disk.files && f !in written
    ensures var r := RestoreAll(schedule, disk, written, originals);
      f in r.disk.files && r.disk.files[f] == disk.files[f] && f !in r.failed && f !in r.restored
    decreases |written|
  {
    if |written| > 0 && GoesOn(schedule(disk.clock)) {
      var rel, rest := written[|written| - 1], written[..|written| - 1];
      assert forall g :: g in rest ==> g in written;
      RestoreElsewhere(schedule, Replaced(schedule, disk, rel, originals[rel]), rest, originals, f);
    }
  }

  /**
   What becomes of each written file, exactly, whether or not the rollback is cut
   short: it holds its original bytes when its restore was reached and did not
   fail before its rename, and is reported when that restore was reached and
   raised an OSError.  So the report can name a restored file.
   */
  lemma {:induction false} RestoreExactly(schedule: Schedule, disk: Disk, written: seq<string>,
          originals: map<string, string>, i: nat)
    requires (forall g :: g in written ==> g in originals && g in disk.files) && Distinct(written) && i < |written|
    ensures var r, j := RestoreAll(schedule, disk, written, originals), |written| - 1 - i;
            var f, o := written[i], schedule(disk.clock + j);
      && f in r.disk.files
      && (f in r.failed <==> GetsTo(schedule, disk.clock, j) && GoesOn(o) && !o.Done?)
      && (f in r.restored <==> GetsTo(schedule, disk.clock, j) && o.Done?)
      && r.disk.files[f] == if RestoreWorks(schedule, disk.clock, j) then Text(originals[f]) else disk.files[f]
    decreases |written|
  {
    var rel, rest := written[|written| - 1], written[..|written| - 1];
    assert forall g :: g in rest ==> g in written;
    var next := Replaced(schedule, disk, rel, originals[rel]);
    if i == |written| - 1 {
      if GoesOn(schedule(disk.clock)) {
        RestoreElsewhere(schedule, next, rest, originals, rel);
      }
    } else {
      assert written[i] == rest[i] && rel != rest[i];
      if GoesOn(schedule(disk.clock)) {
        RestoreExactly(schedule, next, rest, originals, i);
        GetsToNext(schedule, disk.clock, |rest| - 1 - i);
      } else {
        assert !GetsTo(schedule, disk.clock, |written| - 1 - i);
      }
    }
  }

  /** Restoring files that exist never adds or removes a name. */
  lemma {:induction false} RestoreKeys(schedule: Schedule, disk: Disk, written: seq<string>,
          originals: map<string, string>)
    requires forall g :: g in written ==> g in originals && g in disk.files
    ensures RestoreAll(schedule, disk, written, originals).disk.files.Keys == disk.files.Keys
    decreases |written|
  {
    if |written| > 0 && GoesOn(schedule(disk.clock)) {
      var rel, rest := written[|written| - 1], written[..|written| - 1];
      assert forall g :: g in rest ==> g in written;
      RestoreKeys(schedule, Replaced(schedule, disk, rel, originals[rel]), rest, originals);
    }
  }

  /** The first of these files, all there and all with an original. */
  predicate Restorable(written: seq<string>, changes: seq<string>, disk: Disk, originals: map<string, string>) {
    written <= changes && forall g :: g in written ==> g in originals && g in disk.files
  }

  /** The same for the `i`-th of a list of files of which the first are to be restored. */
  lemma RestoreAt(schedule: Schedule, disk: Disk, written: seq<string>, changes: seq<string>,
          originals: map<string, string>, i: nat)
    requires Restorable(written, changes, disk, originals) && Distinct(changes) && i < |changes|
      && changes[i] in disk.files
    ensures var r, j, f := RestoreAll(schedule, disk, written, originals), |written| - 1 - i, changes[i];
      && f in r.disk.files
      && (f in r.failed <==> i < |written| && GetsTo(schedule, disk.clock, j) && GoesOn(schedule(disk.clock + j))
                             && !schedule(disk.clock + j).Done?)
      && r.disk.files[f] == if i < |written| && RestoreWorks(schedule, disk.clock, j)
                            then Text(originals[f]) else disk.files[f]
  {
    assert forall k :: 0 <= k < |written| ==> written[k] == changes[k];
    if i < |written| {
      RestoreExactly(schedule, disk, written, originals, i);
    } else {
      RestoreElsewhere(schedule, disk, written, originals, changes[i]);
    }
  }

  // ---- the write phase in closed form ---------------------------------------------------

  predicate Changed(p: Plan, f: string) {
    f in p.bodies && f in p.originals && p.bodies[f] != p.originals[f]
  }

  /** The files the stamp replaces, in order: those whose body changes. */
  function Changes(p: Plan, todo: seq<string>): seq<string> {
    if |todo| == 0 then []
    else Changes(p, todo[..|todo| - 1]) + if Changed(p, todo[|todo| - 1]) then [todo[|todo| - 1]] else []
  }

  lemma {:induction false} ChangesAre(p: Plan, todo: seq<string>, f: string)
    ensures f in Changes(p, todo) <==> f in todo && Changed(p, f)
  {
    if |todo| > 0 {
      ChangesAre(p, todo[..|todo| - 1], f);
      assert f in todo <==> f in todo[..|todo| - 1] || f == todo[|todo| - 1];
    }
  }

  lemma {:induction false} ChangesDistinct(p: Plan, todo: seq<string>)
    requires Distinct(todo)
    ensures Distinct(Changes(p, todo))
  {
    if |todo| > 0 {
      var init, last := todo[..|todo| - 1], todo[|todo| - 1];
      ChangesDistinct(p, init);
      ChangesAre(p, init, last);
    }
  }

  /** The changes of a prefix are a prefix of the changes. */
  lemma {:induction false} ChangesPrefix(p: Plan, todo: seq<string>, n: nat)
    requires n <= |todo|
    ensures Changes(p, todo[..n]) <= Changes(p, todo)
  {
    if n == |todo| {
      assert todo[..n] == todo;
    } else {
      assert todo[..|todo| - 1][..n] == todo[..n];
      ChangesPrefix(p, todo[..|todo| - 1], n);
    }
  }

  /** The first of `n` replacements that does not come back clean; `n` when all do. */
  function FirstFailure(schedule: Schedule, clock: nat, n: nat): (k: nat)
    ensures k <= n && (k < n ==> !schedule(clock + k).Done?)
    ensures forall t :: clock <= t < clock + k ==> schedule(t).Done?
    decreases n
  {
    if n == 0 || !schedule(clock).Done? then 0 else 1 + FirstFailure(schedule, clock + 1, n - 1)
  }

  lemma FirstFailureIs(schedule: Schedule, clock: nat, n: nat, k: nat)
    requires k <= n && (k < n ==> !schedule(clock + k).Done?)
    requires forall t :: clock <= t < clock + k ==> schedule(t).Done?
    ensures FirstFailure(schedule, clock, n) == k
  {
    var first := clock + FirstFailure(schedule, clock, n);
    assert !(clock + k < first) && !(first < clock + k);
  }

  /** The files with these names at their stamped bodies. */
  function Applied(files: Tree, p: Plan, names: seq<string>): Tree
    requires Covers(p, names)
  {
    if |names| == 0 then files
    else
      var last := names[|names| - 1];
      Applied(files, p, names[..|names| - 1])[last := Text(p.bodies[last])]
  }

  lemma {:induction false} AppliedAt(files: Tree, p: Plan, names: seq<string>, f: string)
    requires Covers(p, names)
    ensures f in names ==> f in Applied(files, p, names) && Applied(files, p, names)[f] == Text(p.bodies[f])
    ensures f !in names ==> (f in Applied(files, p, names) <==> f in files)
    ensures f !in names && f in files ==> Applied(files, p, names)[f] == files[f]
  {
    if |names| > 0 {
      AppliedAt(files, p, names[..|names| - 1], f);
      assert f in names <==> f in names[..|names| - 1] || f == names[|names| - 1];
    }
  }

  lemma {:induction false} AppliedKeys(files: Tree, p: Plan, names: seq<string>)
    requires Covers(p, names) && forall f :: f in names ==> f in files
    ensures Applied(files, p, names).Keys == files.Keys
  {
    if |names| > 0 {
      AppliedKeys(files, p, names[..|names| - 1]);
    }
  }

  lemma AppliedSnoc(files: Tree, p: Plan, changes: seq<string>, m: nat)
    requires Covers(p, changes) && m < |changes|
    ensures Applied(files, p, changes[..m + 1])
      == Applied(files, p, changes[..m])[changes[m] := Text(p.bodies[changes[m]])]
    ensures changes[..m + 1] == changes[..m] + [changes[m]]
  {
    assert changes[..m + 1][..m] == changes[..m];
  }

  /**
   When the `k`-th replacement fails: how many changed files hold their stamped bodies, and
   how many are noted as written.
   */
  function StampedCount(o: Outcome, k: nat): nat {
    if Renames(o) then k + 1 else k
  }

  function NotedCount(o: Outcome, k: nat): nat {
    if o.FailAfter? then k + 1 else k
  }

  /** How the write phase ends: with this disk and these files noted as written. */
  function Ended(schedule: Schedule, o: Outcome, now: Disk, noted: seq<string>, p: Plan): Stamped
    requires Covers(p, noted)
  {
    if Unhandled(o) then Interrupted(now) else AfterFailure(schedule, now, noted, p.originals)
  }

  /** The disk after the first `n` changed files were stamped. */
  function DiskAfter(disk: Disk, p: Plan, changes: seq<string>, n: nat, ticks: nat): Disk
    requires Covers(p, changes) && n <= |changes|
  {
    Disk(Applied(disk.files, p, changes[..n]), disk.clock + ticks)
  }

  /** The write phase ends complete when every replacement comes back clean, and else at the first that does not. */
  predicate EndsAs(schedule: Schedule, disk: Disk, p: Plan, changes: seq<string>, r: Stamped)
    requires Covers(p, changes)
  {
    var k := FirstFailure(schedule, disk.clock, |changes|);
    if k < |changes| then
      var o := schedule(disk.clock + k);
      r == Ended(schedule, o, DiskAfter(disk, p, changes, StampedCount(o, k), k + 1), changes[..NotedCount(o, k)], p)
    else r.Complete? && r.disk == DiskAfter(disk, p, changes, k, k) && r.written == changes
  }

  /** One more file in the order: one more change, or none. */
  lemma OneMoreChange(p: Plan, todo: seq<string>, n: nat)
    requires n < |todo|
    ensures var changes, m := Changes(p, todo), |Changes(p, todo[..n])|;
      if !Changed(p, todo[n]) then |Changes(p, todo[..n + 1])| == m <= |changes|
      else |Changes(p, todo[..n + 1])| == m + 1 <= |changes| && changes[m] == todo[n]
  {
    assert todo[..n + 1][..n] == todo[..n];
    ChangesPrefix(p, todo, n + 1);
  }

  predicate AllDone(schedule: Schedule, clock: nat, m: nat) {
    forall t :: clock <= t < clock + m ==> schedule(t).Done?
  }

  /** The write phase from the `n`-th file on, when the first `m` changed files were replaced clean. */
  function Rest(schedule: Schedule, disk: Disk, p: Plan, todo: seq<string>, n: nat, untouched: seq<string>,
          changes: seq<string>, m: nat): Stamped
    requires Covers(p, todo) && n <= |todo| && Covers(p, changes) && m <= |changes|
  {
    WriteAll(schedule, DiskAfter(disk, p, changes, m, m), p, todo[n..], changes[..m], untouched)
  }

  lemma RestSkips(schedule: Schedule, disk: Disk, p: Plan, todo: seq<string>, n: nat, untouched: seq<string>,
          changes: seq<string>, m: nat)
    requires Covers(p, todo) && n < |todo| && Covers(p, changes) && m <= |changes| && !Changed(p, todo[n])
    ensures Rest(schedule, disk, p, todo, n, untouched, changes, m)
         == Rest(schedule, disk, p, todo, n + 1, untouched + [todo[n]], changes, m)
  {
    assert todo[n..][0] == todo[n] && todo[n..][1..] == todo[n + 1..];
  }

  /** One replacement of the write phase: on to the next file, or the end. */
  lemma RestWrites(schedule: Schedule, disk: Disk, p: Plan, todo: seq<string>, n: nat, untouched: seq<string>,
          changes: seq<string>, m: nat)
    requires Covers(p, todo) && n < |todo| && Covers(p, changes) && m < |changes| && todo[n] == changes[m]
      && Changed(p, todo[n])
    ensures var o := schedule(disk.clock + m);
      Rest(schedule, disk, p, todo, n, untouched, changes, m) ==
        if o.Done? then Rest(schedule, disk, p, todo, n + 1, untouched, changes, m + 1)
        else Ended(schedule, o, DiskAfter(disk, p, changes, StampedCount(o, m), m + 1), changes[..NotedCount(o, m)], p)
  {
    assert todo[n..][0] == todo[n] && todo[n..][1..] == todo[n + 1..];
    AppliedSnoc(disk.files, p, changes, m);
  }

  lemma EndsAtFailure(schedule: Schedule, disk: Disk, p: Plan, changes: seq<string>, m: nat, r: Stamped)
    requires Covers(p, changes) && m < |changes| && !schedule(disk.clock + m).Done?
    requires AllDone(schedule, disk.clock, m)
    requires var o := schedule(disk.clock + m);
      r == Ended(schedule, o, DiskAfter(disk, p, changes, StampedCount(o, m), m + 1), changes[..NotedCount(o, m)], p)
    ensures EndsAs(schedule, disk, p, changes, r)
  {
    assert FirstFailure(schedule, disk.clock, |changes|) == m by {
      FirstFailureIs(schedule, disk.clock, |changes|, m);
    }
  }

  lemma EndsComplete(schedule: Schedule, disk: Disk, p: Plan, todo: seq<string>, untouched: seq<string>,
          changes: seq<string>)
    requires Covers(p, todo) && Covers(p, changes) && AllDone(schedule, disk.clock, |changes|)
    ensures EndsAs(schedule, disk, p, changes, Rest(schedule, disk, p, todo, |todo|, untouched, changes, |changes|))
  {
    FirstFailureIs(schedule, disk.clock, |changes|, |changes|);
    assert changes[..|changes|] == changes;
  }

  lemma {:induction false} WriteFrom(schedule: Schedule, disk: Disk, p: Plan, todo: seq<string>, n: nat,
          untouched: seq<string>, changes: seq<string>, m: nat)
    requires Covers(p, todo) && n <= |todo| && Covers(p, changes)
    requires changes == Changes(p, todo) && m == |Changes(p, todo[..n])| <= |changes|
    requires AllDone(schedule, disk.clock, m)
    ensures EndsAs(schedule, disk, p, changes, Rest(schedule, disk, p, todo, n, untouched, changes, m))
    decreases |todo| - n
  {
    if n == |todo| {
      assert todo[..n] == todo;
      EndsComplete(schedule, disk, p, todo, untouched, changes);
    } else {
      OneMoreChange(p, todo, n);
      if !Changed(p, todo[n]) {
        WriteFrom(schedule, disk, p, todo, n + 1, untouched + [todo[n]], changes, m);
        RestSkips(schedule, disk, p, todo, n, untouched, changes, m);
      } else {
        RestWrites(schedule, disk, p, todo, n, untouched, changes, m);
        if schedule(disk.clock + m).Done? {
          WriteFrom(schedule, disk, p, todo, n + 1, untouched, changes, m + 1);
        } else {
          EndsAtFailure(schedule, disk, p, changes, m, Rest(schedule, disk, p, todo, n, untouched, changes, m));
        }
      }
    }
  }

  // ---- the whole stamp, file by file ------------------------------------------------------

  /** The `i`-th changed file ends up stamped although the `k`-th replacement failed. */
  predicate EndsStamped(schedule: Schedule, clock: nat, k: nat, i: nat) {
    var o := schedule(clock + k);
    var n := NotedCount(o, k);
    if i > k then false
    else if Unhandled(o) then i < k || o.Unnoted?
    else if i < n then !RestoreWorks(schedule, clock + k + 1, n - 1 - i)
    else Renames(o)
  }

  /** The plan's files that change, in the order in which they are written. */
  function ChangedFiles(sites: seq<Site>, version: string, tree: Tree): seq<string>
    requires PlanOf(sites, version, tree).Ok?
  {
    Changes(PlanOf(sites, version, tree).value, PlanOf(sites, version, tree).value.order)
  }

  lemma PlanChanges(p: Plan, tree: Tree)
    requires PlanShape(p, tree)
    ensures var changes := Changes(p, p.order);
      && Covers(p, changes) && Covers(p, p.order) && Distinct(changes)
      && (forall f :: f in changes <==> Changed(p, f))
      && (forall f :: f in changes ==> f in tree)
  {
    ChangesDistinct(p, p.order);
    forall f
      ensures f in Changes(p, p.order) <==> Changed(p, f)
    {
      ChangesAre(p, p.order, f);
    }
  }

  /** The plan's texts are the tree's. */
  predicate Sourced(p: Plan, files: Tree) {
    && p.bodies.Keys == p.originals.Keys
    && forall f {:trigger p.originals[f]} :: f in p.originals ==> f in files && files[f] == Text(p.originals[f])
  }

  /** Files that change, each once and each in the tree. */
  predicate ToChange(p: Plan, files: Tree, changes: seq<string>) {
    && Distinct(changes)
    && forall i {:trigger Changed(p, changes[i])} :: 0 <= i < |changes| ==>
      Changed(p, changes[i]) && changes[i] in files
  }

  /** A run of the write phase of this plan, with these files to change, that ended like this. */
  predicate Writing(schedule: Schedule, disk: Disk, p: Plan, changes: seq<string>, r: Stamped) {
    Sourced(p, disk.files) && ToChange(p, disk.files, changes) && Covers(p, changes)
        && EndsAs(schedule, disk, p, changes, r)
  }

  lemma PlanWrites(schedule: Schedule, disk: Disk, p: Plan)
    requires PlanShape(p, disk.files) && Covers(p, p.order) && Covers(p, Changes(p, p.order))
    ensures EndsAs(schedule, disk, p, Changes(p, p.order), WriteAll(schedule, disk, p, p.order, [], []))
  {
    var changes := Changes(p, p.order);
    assert p.order[..0] == [] && p.order[0..] == p.order && changes[..0] == [];
    assert DiskAfter(disk, p, changes, 0, 0) == disk;
    WriteFrom(schedule, disk, p, p.order, 0, [], changes, 0);
  }

  /** The write phase of a stamp, before its result is put together. */
  lemma StampWrites(schedule: Schedule, disk: Disk, sites: seq<Site>, version: string) returns (w: Stamped)
    requires PlanOf(sites, version, disk.files).Ok?
    ensures StampAll(schedule, disk, sites, version) == Reported(schedule, w)
    ensures Writing(schedule, disk, PlanOf(sites, version, disk.files).value,
      ChangedFiles(sites, version, disk.files), w)
    ensures forall f :: f in ChangedFiles(sites, version, disk.files) <==>
      Changed(PlanOf(sites, version, disk.files).value, f)
  {
    var p := PlanOf(sites, version, disk.files).value;
    PlanCovers(sites, version, disk.files);
    PlanChanges(p, disk.files);
    PlanWrites(schedule, disk, p);
    w := WriteAll(schedule, disk, p, p.order, [], []);
  }

  lemma InPrefix(changes: seq<string>, n: nat, i: nat)
    requires Distinct(changes) && n <= |changes| && i < |changes|
    ensures changes[i] in changes[..n] <==> i < n
  {
    assert i < n ==> changes[..n][i] == changes[i];
  }

  /** What a file that the write phase reached, or did not reach, ends up as. */
  lemma StampedWhen(schedule: Schedule, clock: nat, k: nat, i: nat, original: Content, body: Content)
    requires !schedule(clock + k).Done?
    ensures var o := schedule(clock + k); var n := NotedCount(o, k);
      (if !Unhandled(o) && i < n && RestoreWorks(schedule, clock + k + 1, n - 1 - i) then original
       else if i < StampedCount(o, k) then body else original)
      == if EndsStamped(schedule, clock, k, i) then body else original
  {
  }

  /**
   A failing replacement: the first changed files are stamped, the noted ones can be
   restored, the others are as they were.
   */
  predicate Failure(schedule: Schedule, disk: Disk, p: Plan, changes: seq<string>, k: nat, now: Disk,
          noted: seq<string>)
  {
    && Sourced(p, disk.files) && ToChange(p, disk.files, changes) && k < |changes| && !schedule(disk.clock + k).Done?
    && now.clock == disk.clock + k + 1 && now.files.Keys == disk.files.Keys
    && Restorable(noted, changes, now, p.originals) && |noted| == NotedCount(schedule(disk.clock + k), k)
    && (forall i {:trigger Changed(p, changes[i])} ::
          0 <= i < |changes| && changes[i] in now.files && Changed(p, changes[i]) ==>
          now.files[changes[i]] == Text(if i < StampedCount(schedule(disk.clock + k), k)
                                        then p.bodies[changes[i]] else p.originals[changes[i]]))
  }

  predicate OthersKept(disk: Disk, changes: seq<string>, now: Disk) {
    forall f {:trigger now.files[f]} :: f in disk.files && f in now.files && f !in changes
        ==> now.files[f] == disk.files[f]
  }

  /** The disk in the end. */
  function FinalDisk(schedule: Schedule, o: Outcome, now: Disk, noted: seq<string>, p: Plan): Disk
    requires forall g :: g in noted ==> g in p.originals
  {
    if Unhandled(o) then now else RestoreAll(schedule, now, noted, p.originals).disk
  }

  lemma StateAtFailure(schedule: Schedule, disk: Disk, p: Plan, changes: seq<string>, k: nat)
    requires Sourced(p, disk.files) && ToChange(p, disk.files, changes) && Covers(p, changes) && k < |changes|
      && !schedule(disk.clock + k).Done?
    ensures var o := schedule(disk.clock + k); var now := DiskAfter(disk, p, changes, StampedCount(o, k), k + 1);
      Failure(schedule, disk, p, changes, k, now, changes[..NotedCount(o, k)]) && OthersKept(disk, changes, now)
  {
    var o := schedule(disk.clock + k);
    var n := StampedCount(o, k);
    StampedTree(disk.files, p, changes, n);
  }

  /** The tree with the first `n` of the files to change stamped. */
  lemma StampedTree(files: Tree, p: Plan, changes: seq<string>, n: nat)
    requires Sourced(p, files) && ToChange(p, files, changes) && Covers(p, changes) && n <= |changes|
    ensures var now := Applied(files, p, changes[..n]);
      && now.Keys == files.Keys
      && (forall i {:trigger Changed(p, changes[i])} :: 0 <= i < |changes| && Changed(p, changes[i]) ==>
           changes[i] in files && now[changes[i]]
               == Text(if i < n then p.bodies[changes[i]] else p.originals[changes[i]]))
      && (forall f {:trigger now[f]} :: f in files && f !in changes ==> now[f] == files[f])
  {
    forall f | f in changes
      ensures f in files
    {
      var i :| 0 <= i < |changes| && changes[i] == f;
      assert Changed(p, changes[i]);
    }
    AppliedKeys(files, p, changes[..n]);
    forall i | 0 <= i < |changes| && Changed(p, changes[i])
      ensures changes[i] in files
      ensures Applied(files, p, changes[..n])[changes[i]]
        == Text(if i < n then p.bodies[changes[i]] else p.originals[changes[i]])
    {
      InPrefix(changes, n, i);
      AppliedAt(files, p, changes[..n], changes[i]);
      assert files[changes[i]] == Text(p.originals[changes[i]]);
    }
    forall f | f in files && f !in changes
      ensures f in Applied(files, p, changes[..n]) && Applied(files, p, changes[..n])[f] == files[f]
    {
      AppliedAt(files, p, changes[..n], f);
    }
  }

  /** Where a write phase failed, and how it went on. */
  lemma WhereItFailed(schedule: Schedule, disk: Disk, p: Plan, changes: seq<string>, r: Stamped)
    returns (k: nat, now: Disk, noted: seq<string>)
    requires Writing(schedule, disk, p, changes, r) && !r.Complete?
    ensures k == FirstFailure(schedule, disk.clock, |changes|) && Failure(schedule, disk, p, changes, k, now, noted)
    ensures OthersKept(disk, changes, now)
    ensures !r.Refused? && r.disk == FinalDisk(schedule, schedule(disk.clock + k), now, noted, p)
    ensures r.RolledBack? ==> r.failed == RestoreAll(schedule, now, noted, p.originals).failed
                              && !RestoreAll(schedule, now, noted, p.originals).interrupted
                              && !Unhandled(schedule(disk.clock + k))
  {
    k := FirstFailure(schedule, disk.clock, |changes|);
    var o := schedule(disk.clock + k);
    now, noted := DiskAfter(disk, p, changes, StampedCount(o, k), k + 1), changes[..NotedCount(o, k)];
    StateAtFailure(schedule, disk, p, changes, k);
  }

  /** The `i`-th changed file when the replacement failed. */
  lemma NowAt(schedule: Schedule, disk: Disk, p: Plan, changes: seq<string>, k: nat, now: Disk, noted: seq<string>,
          i: nat)
    requires Failure(schedule, disk, p, changes, k, now, noted) && i < |changes|
    ensures var f := changes[i];
      && f in disk.files && f in now.files && f in p.bodies && f in p.originals
      && disk.files[f] == Text(p.originals[f]) && p.bodies[f] != p.originals[f]
      && now.files[f] == if i < StampedCount(schedule(disk.clock + k), k)
          then Text(p.bodies[f]) else Text(p.originals[f])
  {
    assert Changed(p, changes[i]);
  }

  /** What a failure leaves of the `i`-th changed file. */
  lemma FailureLeaves(schedule: Schedule, disk: Disk, p: Plan, changes: seq<string>, k: nat, now: Disk,
          noted: seq<string>, i: nat)
    requires Failure(schedule, disk, p, changes, k, now, noted) && i < |changes|
    ensures var d, f := FinalDisk(schedule, schedule(disk.clock + k), now, noted, p).files, changes[i];
      && f in d && f in disk.files && f in p.bodies && Text(p.bodies[f]) != disk.files[f]
      && d[f] == if EndsStamped(schedule, disk.clock, k, i) then Text(p.bodies[f]) else disk.files[f]
  {
    NowAt(schedule, disk, p, changes, k, now, noted, i);
    RestoreAt(schedule, now, noted, changes, p.originals, i);
    StampedWhen(schedule, disk.clock, k, i, Text(p.originals[changes[i]]), Text(p.bodies[changes[i]]));
  }

  lemma FailureLeavesOther(schedule: Schedule, disk: Disk, p: Plan, changes: seq<string>, k: nat, now: Disk,
          noted: seq<string>, f: string)
    requires Failure(schedule, disk, p, changes, k, now, noted) && OthersKept(disk, changes, now) && f in disk.files
      && f !in changes
    ensures var d := FinalDisk(schedule, schedule(disk.clock + k), now, noted, p).files;
      f in d && d[f] == disk.files[f]
  {
    assert now.files[f] == disk.files[f] && f !in noted;
    RestoreElsewhere(schedule, now, noted, p.originals, f);
  }

  /** Names are neither added nor removed. */
  lemma FailureKeys(schedule: Schedule, disk: Disk, p: Plan, changes: seq<string>, k: nat, now: Disk,
          noted: seq<string>)
    requires Failure(schedule, disk, p, changes, k, now, noted)
    ensures FinalDisk(schedule, schedule(disk.clock + k), now, noted, p).files.Keys == disk.files.Keys
  {
    RestoreKeys(schedule, now, noted, p.originals);
  }

  lemma CompleteLeaves(schedule: Schedule, disk: Disk, p: Plan, changes: seq<string>, r: Stamped, f: string)
    requires Writing(schedule, disk, p, changes, r) && r.Complete? && f in disk.files
      && (f in changes <==> Changed(p, f))
    ensures FirstFailure(schedule, disk.clock, |changes|) == |changes|
    ensures f in r.disk.files && r.disk.files[f] == if f in p.bodies then Text(p.bodies[f]) else disk.files[f]
  {
    assert changes[..|changes|] == changes;
    AppliedAt(disk.files, p, changes, f);
  }

  /** What a write phase that failed leaves of a file. */
  predicate LeftBy(schedule: Schedule, disk: Disk, p: Plan, changes: seq<string>, k: nat, files: Tree, f: string)
    requires f in disk.files
  {
    && f in files && (f !in changes ==> files[f] == disk.files[f])
    && forall i :: 0 <= i < |changes| && changes[i] == f ==>
         f in p.bodies && files[f] == if EndsStamped(schedule, disk.clock, k, i)
             then Text(p.bodies[f]) else disk.files[f]
  }

  lemma FailureLeft(schedule: Schedule, disk: Disk, p: Plan, changes: seq<string>, k: nat, now: Disk,
          noted: seq<string>, f: string)
    requires Failure(schedule, disk, p, changes, k, now, noted) && OthersKept(disk, changes, now) && f in disk.files
    ensures LeftBy(schedule, disk, p, changes, k, FinalDisk(schedule, schedule(disk.clock + k), now, noted, p).files, f)
  {
    if i :| 0 <= i < |changes| && changes[i] == f {
      FailureLeaves(schedule, disk, p, changes, k, now, noted, i);
      assert forall j :: 0 <= j < |changes| && changes[j] == f ==> j == i;
    } else {
      FailureLeavesOther(schedule, disk, p, changes, k, now, noted, f);
    }
  }

  /** An exception behind the last replacement leaves every changed file stamped. */
  lemma OutsideLeft(schedule: Schedule, disk: Disk, p: Plan, changes: seq<string>, w: Stamped, f: string)
    requires Writing(schedule, disk, p, changes, w) && w.Complete? && f in disk.files
      && (f in changes <==> Changed(p, f))
    requires schedule(disk.clock + |changes|).Outside?
    ensures LeftBy(schedule, disk, p, changes, |changes|, w.disk.files, f)
  {
    CompleteLeaves(schedule, disk, p, changes, w, f);
  }

  /** Exactly what a stamp leaves of every file, completed or not; files without a site are never touched. */
  lemma StampLeaves(schedule: Schedule, disk: Disk, sites: seq<Site>, version: string, f: string)
    requires PlanOf(sites, version, disk.files).Ok? && f in disk.files
    ensures var p, changes := PlanOf(sites, version, disk.files).value, ChangedFiles(sites, version, disk.files);
            var k, r := FirstFailure(schedule, disk.clock, |changes|), StampAll(schedule, disk, sites, version);
      && (r.Complete? <==> k == |changes| && !schedule(disk.clock + k).Outside?) && !r.Refused?
      && if r.Complete? then
           f in r.disk.files && r.disk.files[f] == if f in p.bodies then Text(p.bodies[f]) else disk.files[f]
         else LeftBy(schedule, disk, p, changes, k, r.disk.files, f)
  {
    var p, changes := PlanOf(sites, version, disk.files).value, ChangedFiles(sites, version, disk.files);
    var w := StampWrites(schedule, disk, sites, version);
    if w.Complete? {
      CompleteLeaves(schedule, disk, p, changes, w, f);
      if schedule(disk.clock + |changes|).Outside? {
        OutsideLeft(schedule, disk, p, changes, w, f);
      }
    } else {
      var k, now, noted := WhereItFailed(schedule, disk, p, changes, w);
      FailureLeft(schedule, disk, p, changes, k, now, noted, f);
    }
  }

  // ---- all or none -------------------------------------------------------------------

  predicate AllRestore(schedule: Schedule, clock: nat, n: nat) {
    forall j :: 0 <= j < n ==> RestoreWorks(schedule, clock, j)
  }

  /**
   The failed stamp is undone: the exception said whether the rename happened,
   and every file noted as written has a restore that is reached and does not
   fail before its rename; or the exception came from outside the replacements,
   before the first of them.
   */
  predicate Undone(schedule: Schedule, clock: nat, k: nat) {
    var o := schedule(clock + k);
    || ((o.FailBefore? || o.FailAfter?) && AllRestore(schedule, clock + k + 1, NotedCount(o, k)))
    || (o.Outside? && k == 0)
  }

  lemma UndoneMeans(schedule: Schedule, clock: nat, k: nat, n: nat)
    requires k < n && !schedule(clock + k).Done?
    ensures Undone(schedule, clock, k) <==> forall i :: 0 <= i < n ==> !EndsStamped(schedule, clock, k, i)
  {
    var o := schedule(clock + k);
    if o.Outside? {
      assert k > 0 ==> EndsStamped(schedule, clock, k, 0);
    } else if forall i :: 0 <= i < n ==> !EndsStamped(schedule, clock, k, i) {
      assert !EndsStamped(schedule, clock, k, k);
      var start := clock + k + 1;
      forall j | 0 <= j < NotedCount(o, k)
        ensures RestoreWorks(schedule, start, j)
      {
        assert !EndsStamped(schedule, clock, k, NotedCount(o, k) - 1 - j);
      }
    }
  }

  /** Two trees with the same names are equal when they agree on the changed files, if they agree elsewhere. */
  lemma SameTree(now: Tree, before: Tree, changes: seq<string>)
    requires now.Keys == before.Keys && forall f :: f in before && f !in changes ==> now[f] == before[f]
    requires forall i :: 0 <= i < |changes| ==> changes[i] in before
    ensures now == before <==> forall i :: 0 <= i < |changes| ==> now[changes[i]] == before[changes[i]]
  {
    if forall i :: 0 <= i < |changes| ==> now[changes[i]] == before[changes[i]] {
      forall f | f in before
        ensures now[f] == before[f]
      {
      }
    }
  }

  lemma FailureUndone(schedule: Schedule, disk: Disk, p: Plan, changes: seq<string>, k: nat, now: Disk,
          noted: seq<string>)
    requires Failure(schedule, disk, p, changes, k, now, noted) && OthersKept(disk, changes, now)
    ensures FinalDisk(schedule, schedule(disk.clock + k), now, noted, p).files == disk.files
      <==> Undone(schedule, disk.clock, k)
  {
    var d := FinalDisk(schedule, schedule(disk.clock + k), now, noted, p).files;
    FailureKeys(schedule, disk, p, changes, k, now, noted);
    UndoneMeans(schedule, disk.clock, k, |changes|);
    forall i | 0 <= i < |changes|
      ensures changes[i] in disk.files && (d[changes[i]] == disk.files[changes[i]]
        <==> !EndsStamped(schedule, disk.clock, k, i))
    {
      FailureLeaves(schedule, disk, p, changes, k, now, noted, i);
    }
    forall f | f in disk.files && f !in changes
      ensures d[f] == disk.files[f]
    {
      FailureLeavesOther(schedule, disk, p, changes, k, now, noted, f);
    }
    SameTree(d, disk.files, changes);
  }

  lemma CompleteChanges(schedule: Schedule, disk: Disk, p: Plan, changes: seq<string>, w: Stamped)
    requires Writing(schedule, disk, p, changes, w) && w.Complete?
    ensures FirstFailure(schedule, disk.clock, |changes|) == |changes| && w.disk.clock == disk.clock + |changes|
    ensures w.disk.files == disk.files <==> changes == []
  {
    if changes == [] {
      assert changes[..0] == [];
    } else {
      assert Changed(p, changes[0]) && changes[..|changes|] == changes;
      AppliedAt(disk.files, p, changes, changes[0]);
      assert w.disk.files[changes[0]] == Text(p.bodies[changes[0]]);
    }
  }

  /** After a stamp that did not complete the tree is the tree it started from if and only if the stamp is undone. */
  lemma RestoredIffUndone(schedule: Schedule, disk: Disk, sites: seq<Site>, version: string)
    requires PlanOf(sites, version, disk.files).Ok? && !StampAll(schedule, disk, sites, version).Complete?
    ensures var k, r := FirstFailure(schedule, disk.clock, |ChangedFiles(sites, version, disk.files)|),
      StampAll(schedule, disk, sites, version);
      !r.Refused? && (r.disk.files == disk.files <==> Undone(schedule, disk.clock, k))
  {
    var p, changes := PlanOf(sites, version, disk.files).value, ChangedFiles(sites, version, disk.files);
    var w := StampWrites(schedule, disk, sites, version);
    if w.Complete? {
      CompleteChanges(schedule, disk, p, changes, w);
    } else {
      var k, now, noted := WhereItFailed(schedule, disk, p, changes, w);
      FailureUndone(schedule, disk, p, changes, k, now, noted);
    }
  }

  /**
   In a rollback that ran to its end, a file is named exactly when its restore raised, and
   otherwise that restore worked.
   */
  lemma NamedAt(schedule: Schedule, now: Disk, noted: seq<string>, changes: seq<string>,
          originals: map<string, string>, i: nat)
    requires Restorable(noted, changes, now, originals) && Distinct(changes) && i < |changes| && changes[i] in now.files
    requires !RestoreAll(schedule, now, noted, originals).interrupted
    ensures changes[i] in RestoreAll(schedule, now, noted, originals).failed
        || (i < |noted| ==> RestoreWorks(schedule, now.clock, |noted| - 1 - i))
    ensures i >= |noted| ==> changes[i] !in RestoreAll(schedule, now, noted, originals).failed
  {
    RestoreInterrupted(schedule, now, noted, originals);
    RestoreAt(schedule, now, noted, changes, originals, i);
    if i < |noted| {
      assert GetsTo(schedule, now.clock, |noted| - 1 - i);
      assert GoesOn(schedule(now.clock + |noted| - 1 - i));
    }
  }

  /** So a file it does not name is restored, save one that was renamed and never noted. */
  lemma UnnamedAt(schedule: Schedule, disk: Disk, p: Plan, changes: seq<string>, k: nat, now: Disk,
          noted: seq<string>, i: nat)
    requires Failure(schedule, disk, p, changes, k, now, noted) && i < |changes| && !Unhandled(schedule(disk.clock + k))
    requires !RestoreAll(schedule, now, noted, p.originals).interrupted
    ensures changes[i] in RestoreAll(schedule, now, noted, p.originals).failed
        || (EndsStamped(schedule, disk.clock, k, i) <==> i == k && schedule(disk.clock + k).Unflagged?)
    ensures i == k && schedule(disk.clock + k).Unflagged?
      ==> changes[i] !in RestoreAll(schedule, now, noted, p.originals).failed
  {
    assert Changed(p, changes[i]);
    NamedAt(schedule, now, noted, changes, p.originals, i);
  }

  lemma Unnamed(schedule: Schedule, disk: Disk, p: Plan, changes: seq<string>, k: nat, now: Disk, noted: seq<string>,
          f: string)
    requires Failure(schedule, disk, p, changes, k, now, noted) && OthersKept(disk, changes, now)
      && !Unhandled(schedule(disk.clock + k))
    requires !RestoreAll(schedule, now, noted, p.originals).interrupted
    requires f in disk.files && f !in RestoreAll(schedule, now, noted, p.originals).failed
    ensures var d := FinalDisk(schedule, schedule(disk.clock + k), now, noted, p).files;
      f in d && (d[f] == disk.files[f] <==> !(schedule(disk.clock + k).Unflagged? && f == changes[k]))
  {
    if i :| 0 <= i < |changes| && changes[i] == f {
      FailureLeaves(schedule, disk, p, changes, k, now, noted, i);
      UnnamedAt(schedule, disk, p, changes, k, now, noted, i);
      assert f == changes[k] ==> i == k;
    } else {
      FailureLeavesOther(schedule, disk, p, changes, k, now, noted, f);
    }
  }

  /**
   The trees before and after, and the files a rollback names: what it says of the unnamed
   ones, given the one exception.
   */
  predicate Accounted(before: Tree, after: Tree, failed: seq<string>, exception: Option<string>) {
    && after.Keys == before.Keys
    && (forall f {:trigger after[f]} :: f in before && f !in failed ==>
          (after[f] == before[f] <==> exception != Some(f)))
    && (exception.Some? ==> exception.value in before && exception.value !in failed)
  }

  lemma NothingNamed(before: Tree, after: Tree, failed: seq<string>, exception: Option<string>)
    requires Accounted(before, after, failed, exception) && failed == []
    ensures after == before <==> exception == None
  {
    if exception == None {
      forall f | f in before
        ensures after[f] == before[f]
      {
      }
    } else {
      assert after[exception.value] != before[exception.value];
    }
  }

  /** The file whose replacement was cut off between the rename and the mark, if that is how the stamp failed. */
  function CutOff(schedule: Schedule, clock: nat, changes: seq<string>): Option<string> {
    var k := FirstFailure(schedule, clock, |changes|);
    if k < |changes| && schedule(clock + k).Unflagged? then Some(changes[k]) else None
  }

  lemma FailureAccounted(schedule: Schedule, disk: Disk, p: Plan, changes: seq<string>, k: nat, now: Disk,
          noted: seq<string>,
                         r: Rollback, cut: Option<string>)
    requires Failure(schedule, disk, p, changes, k, now, noted) && OthersKept(disk, changes, now)
      && !Unhandled(schedule(disk.clock + k))
    requires r == RestoreAll(schedule, now, noted, p.originals) && !r.interrupted
    requires cut == if schedule(disk.clock + k).Unflagged? then Some(changes[k]) else None
    ensures Accounted(disk.files, r.disk.files, r.failed, cut)
  {
    assert r.disk.files.Keys == disk.files.Keys by {
      FailureKeys(schedule, disk, p, changes, k, now, noted);
    }
    assert cut.Some? ==> changes[k] in disk.files && changes[k] !in r.failed by {
      NowAt(schedule, disk, p, changes, k, now, noted, k);
      UnnamedAt(schedule, disk, p, changes, k, now, noted, k);
    }
    forall f | f in disk.files && f !in r.failed
      ensures f in r.disk.files && (r.disk.files[f] == disk.files[f] <==> cut != Some(f))
    {
      Unnamed(schedule, disk, p, changes, k, now, noted, f);
    }
  }

  lemma CutOffIs(schedule: Schedule, clock: nat, changes: seq<string>, k: nat)
    requires k == FirstFailure(schedule, clock, |changes|) && k < |changes|
    ensures CutOff(schedule, clock, changes) == if schedule(clock + k).Unflagged? then Some(changes[k]) else None
  {
  }

  lemma WritingAccounted(schedule: Schedule, disk: Disk, p: Plan, changes: seq<string>, r: Stamped)
    requires Writing(schedule, disk, p, changes, r) && r.RolledBack?
    ensures Accounted(disk.files, r.disk.files, r.failed, CutOff(schedule, disk.clock, changes))
  {
    var k, now, noted := WhereItFailed(schedule, disk, p, changes, r);
    var rollback, cut := RestoreAll(schedule, now, noted, p.originals), CutOff(schedule, disk.clock, changes);
    assert Accounted(disk.files, rollback.disk.files, rollback.failed, cut) by {
      CutOffIs(schedule, disk.clock, changes, k);
      FailureAccounted(schedule, disk, p, changes, k, now, noted, rollback, cut);
    }
  }

  /**
   A stamp that rolled back, for every schedule of failures: every file it does
   not name has its original bytes, save the one whose replacement was cut off
   between the rename and the mark.  With no name reported the tree is the tree
   it started from if and only if that did not happen.
   */
  lemma AllOrNone(schedule: Schedule, disk: Disk, sites: seq<Site>, version: string)
    requires StampAll(schedule, disk, sites, version).RolledBack?
    ensures var r, cut := StampAll(schedule, disk, sites, version),
      CutOff(schedule, disk.clock, ChangedFiles(sites, version, disk.files));
      && Accounted(disk.files, r.disk.files, r.failed, cut)
      && (r.failed == [] ==> (r.disk.files == disk.files <==> cut == None))
  {
    var r, cut := StampAll(schedule, disk, sites, version),
        CutOff(schedule, disk.clock, ChangedFiles(sites, version, disk.files));
    var w := StampWrites(schedule, disk, sites, version);
    assert w == r;
    WritingAccounted(schedule, disk, PlanOf(sites, version, disk.files).value,
        ChangedFiles(sites, version, disk.files), r);
    if r.failed == [] {
      NothingNamed(disk.files, r.disk.files, r.failed, cut);
    }
  }

  /**
   A rollback that is cut short at its `j`-th restore leaves every file it had
   still to restore as it was, stamped, and reports nothing.
   */
  lemma InterruptLeavesStamped(schedule: Schedule, disk: Disk, written: seq<string>, originals: map<string, string>,
          j: nat)
    requires (forall g :: g in written ==> g in originals && g in disk.files) && Distinct(written)
    requires j < |written| && GetsTo(schedule, disk.clock, j) && !GoesOn(schedule(disk.clock + j))
    ensures AfterFailure(schedule, disk, written, originals).Interrupted?
    ensures forall i :: 0 <= i < |written| - 1 - j ==>
      && written[i] in AfterFailure(schedule, disk, written, originals).disk.files
      && AfterFailure(schedule, disk, written, originals).disk.files[written[i]] == disk.files[written[i]]
  {
    RestoreInterrupted(schedule, disk, written, originals);
    forall i | 0 <= i < |written| - 1 - j
      ensures var d := RestoreAll(schedule, disk, written, originals).disk;
        written[i] in d.files && d.files[written[i]] == disk.files[written[i]]
    {
      RestoreExactly(schedule, disk, written, originals, i);
    }
  }

  const WHOLE: Anchor := (body: string) => [Span(0, |body|)]

  /**
   At an input: one file holding just a version, and an interrupt right after its
   rename.  The stamp reports that nothing is left to repair, and the file holds
   the new version.
   */
  lemma UnflaggedInterrupt(rel: string, was: string, version: string)
    requires IsVersion(version) && was != version
    ensures StampAll((n: nat) => Unflagged(OtherError), Disk(map[rel := Text(was)], 0),
      [Site(rel, WHOLE, "version", true)], version)
         == RolledBack(Disk(map[rel := Text(version)], 1), [], [])
  {
    var p := OneFilePlan(rel, was, version);
    OneFileWrite((n: nat) => Unflagged(OtherError), rel, was, version, p);
  }

  /**
   At an input: one file holding just a version, replaced clean, and an exception
   when the report of what is outstanding is put together.  Nothing is rolled
   back, and the file holds the new version.
   */
  lemma OutstandingRaises(rel: string, was: string, version: string)
    requires IsVersion(version) && was != version
    ensures StampAll((n: nat) => if n == 0 then Done else Outside, Disk(map[rel := Text(was)], 0),
      [Site(rel, WHOLE, "version", true)], version)
         == Interrupted(Disk(map[rel := Text(version)], 1))
  {
    var p := OneFilePlan(rel, was, version);
    OneFileDone((n: nat) => if n == 0 then Done else Outside, rel, was, version, p);
  }

  lemma OneFileDone(schedule: Schedule, rel: string, was: string, version: string, p: Plan)
    requires schedule(0) == Done && was != version
    requires p.order == [rel] && p.bodies == map[rel := version] && p.originals == map[rel := was]
    ensures WriteAll(schedule, Disk(map[rel := Text(was)], 0), p, p.order, [], [])
      == Complete(Disk(map[rel := Text(version)], 1), [rel], [])
  {
    var tree: Tree := map[rel := Text(was)];
    assert tree[rel := Text(version)] == map[rel := Text(version)];
    assert [] + [rel] == [rel] && p.order[1..] == [];
  }

  lemma OneSitePlan(site: Site, version: string, tree: Tree) returns (p: Plan)
    requires site.anchor == WHOLE && site.hasGroup && site.rel in tree && tree[site.rel].Text?
    ensures PlanSites([site], version, tree) == Ok(p)
    ensures p.order == [site.rel] && p.bodies == map[site.rel := version]
      && p.originals == map[site.rel := tree[site.rel].text]
  {
    var was := tree[site.rel].text;
    assert [site][..0] == [];
    p := PlanSite(Plan([], map[], map[], map[]), site, version, tree).value;
    assert was[..0] + version + was[|was|..] == version;
  }

  lemma WholeReads(site: Site, bodies: map<string, string>, version: string)
    requires site.anchor == WHOLE && site.rel in bodies && bodies[site.rel] == version
    ensures Reads(site, bodies, version)
  {
    assert version[0..|version|] == version;
  }

  lemma OneFilePlan(rel: string, was: string, version: string) returns (p: Plan)
    requires IsVersion(version)
    ensures PlanOf([Site(rel, WHOLE, "version", true)], version, map[rel := Text(was)]) == Ok(p)
    ensures p.order == [rel] && p.bodies == map[rel := version] && p.originals == map[rel := was]
  {
    var site := Site(rel, WHOLE, "version", true);
    p := OneSitePlan(site, version, map[rel := Text(was)]);
    WholeReads(site, p.bodies, version);
  }

  lemma OneFileWrite(schedule: Schedule, rel: string, was: string, version: string, p: Plan)
    requires schedule(0) == Unflagged(OtherError) && was != version
    requires p.order == [rel] && p.bodies == map[rel := version] && p.originals == map[rel := was]
    ensures WriteAll(schedule, Disk(map[rel := Text(was)], 0), p, p.order, [], [])
      == RolledBack(Disk(map[rel := Text(version)], 1), [], [])
  {
    var tree: Tree := map[rel := Text(was)];
    assert tree[rel := Text(version)] == map[rel := Text(version)];
  }

  // ---- agreement with the gate ----------------------------------------------------------

  /** Universal newlines, as a text-mode read applies them. */
  function Translated(s: string): string {
    if |s| == 0 then ""
    else if s[0] == '\r' then "\n" + Translated(if |s| > 1 && s[1] == '\n' then s[2..] else s[1..])
    else [s[0]] + Translated(s[1..])
  }

  lemma {:induction false} NothingToTranslate(s: string)
    requires '\r' !in s
    ensures Translated(s) == s
  {
    if |s| > 0 {
      NothingToTranslate(s[1..]);
    }
  }

  /** What the drift gate reads: newlines are translated, and bytes that do not decode are replaced. */
  function GateText(lossy: seq<bv8> -> string, content: Content): string {
    match content
    case Text(text) => Translated(text)
    case NotUtf8(bytes) => Translated(lossy(bytes))
  }

  /** The drift gate's comparison for one site: the first match in what it reads. */
  predicate GateAccepts(lossy: seq<bv8> -> string, site: Site, files: Tree, want: string) {
    && site.rel in files
    && var body := GateText(lossy, files[site.rel]);
    |site.anchor(body)| > 0 && Captured(site.anchor, body)[0] == want
  }

  /** The gate's loop over the sites: the positions of those that drifted. */
  method CheckVersion(lossy: seq<bv8> -> string, sites: seq<Site>, files: Tree, want: string)
          returns (findings: seq<nat>)
    ensures forall i :: i in findings <==> 0 <= i < |sites| && !GateAccepts(lossy, sites[i], files, want)
  {
    findings := [];
    for n := 0 to |sites|
      invariant forall i :: i in findings <==> 0 <= i < n && !GateAccepts(lossy, sites[i], files, want)
    {
      if sites[n].rel !in files {
        findings := findings + [n];
        continue;
      }
      var body := GateText(lossy, files[sites[n].rel]);
      if |sites[n].anchor(body)| == 0 || Captured(sites[n].anchor, body)[0] != want {
        findings := findings + [n];
      }
    }
  }

  /** After a completed stamp every stamped file without carriage returns satisfies the gate at every site. */
  lemma StampSatisfiesGate(schedule: Schedule, disk: Disk, sites: seq<Site>, version: string,
          lossy: seq<bv8> -> string, i: nat)
    requires StampAll(schedule, disk, sites, version).Complete? && i < |sites|
    ensures var files := StampAll(schedule, disk, sites, version).disk.files;
      && sites[i].rel in files && files[sites[i].rel].Text?
      && ('\r' !in files[sites[i].rel].text ==> GateAccepts(lossy, sites[i], files, version))
  {
    var p := PlanOf(sites, version, disk.files).value;
    PlanCovers(sites, version, disk.files);
    assert Reads(sites[i], p.bodies, version);
    assert sites[i].rel in p.originals;
    StampLeaves(schedule, disk, sites, version, sites[i].rel);
    var files := StampAll(schedule, disk, sites, version).disk.files;
    if '\r' !in files[sites[i].rel].text {
      NothingToTranslate(files[sites[i].rel].text);
    }
  }

  // ---- idempotence -----------------------------------------------------------------------

  /** A file whose site already reads the version plans to the bytes it has. */
  lemma RewriteSame(body: string, span: Span, version: string)
    requires span.start <= span.end <= |body| && body[span.start..span.end] == version
    ensures body[..span.start] + version + body[span.end..] == body
  {
  }

  predicate Stable(tree: Tree, sites: seq<Site>, version: string) {
    forall i :: 0 <= i < |sites| ==>
      && sites[i].hasGroup && sites[i].rel in tree && tree[sites[i].rel].Text?
      && Captured(sites[i].anchor, tree[sites[i].rel].text) == [version]
  }

  lemma StableSite(p: Plan, site: Site, version: string, tree: Tree)
    requires PlanShape(p, tree) && p.bodies == p.originals
    requires site.hasGroup && site.rel in tree && tree[site.rel].Text?
    requires Captured(site.anchor, tree[site.rel].text) == [version]
    ensures PlanSite(p, site, version, tree).Ok?
    ensures PlanSite(p, site, version, tree).value.bodies == PlanSite(p, site, version, tree).value.originals
  {
    var loaded := Load(p, site.rel, tree).value;
    var body := tree[site.rel].text;
    assert loaded.bodies[site.rel] == body;
    var spans := site.anchor(body);
    assert |spans| == |Captured(site.anchor, body)| == 1;
    assert Captured(site.anchor, body)[0] == version;
    RewriteSame(body, spans[0], version);
    assert loaded.bodies[site.rel := body] == loaded.bodies;
  }

  lemma {:induction false} StablePlan(sites: seq<Site>, version: string, tree: Tree)
    requires Stable(tree, sites, version)
    ensures PlanSites(sites, version, tree).Ok?
    ensures PlanSites(sites, version, tree).value.bodies == PlanSites(sites, version, tree).value.originals
  {
    if |sites| > 0 {
      var init, last := sites[..|sites| - 1], sites[|sites| - 1];
      StablePlan(init, version, tree);
      PlanCovers(init, version, tree);
      StableSite(PlanSites(init, version, tree).value, last, version, tree);
    }
  }

  lemma {:induction false} NothingToWrite(schedule: Schedule, disk: Disk, p: Plan, todo: seq<string>,
          untouched: seq<string>)
    requires Covers(p, todo) && p.bodies == p.originals
    ensures WriteAll(schedule, disk, p, todo, [], untouched) == Complete(disk, [], untouched + todo)
    decreases |todo|
  {
    if |todo| == 0 {
      assert untouched + todo == untouched;
    } else {
      NothingToWrite(schedule, disk, p, todo[1..], untouched + [todo[0]]);
      assert untouched + [todo[0]] + todo[1..] == untouched + todo;
    }
  }

  /** A tree whose every site reads the version is left alone, byte for byte and under any schedule. */
  lemma StableStampsNothing(schedule: Schedule, disk: Disk, sites: seq<Site>, version: string)
    requires IsVersion(version) && Stable(disk.files, sites, version)
    ensures var r := StampAll(schedule, disk, sites, version);
      !r.Refused? && r.disk == disk
      && if schedule(disk.clock).Outside? then r.Interrupted? else r.Complete? && r.written == []
  {
    StablePlan(sites, version, disk.files);
    PlanCovers(sites, version, disk.files);
    var p := PlanSites(sites, version, disk.files).value;
    forall i | 0 <= i < |sites|
      ensures Reads(sites[i], p.bodies, version)
    {
      assert sites[i].rel in FilesOf(sites);
    }
    NothingToWrite(schedule, disk, p, p.order, []);
  }

  lemma {:induction false} PlannedSitesHaveGroups(sites: seq<Site>, version: string, tree: Tree)
    requires PlanSites(sites, version, tree).Ok?
    ensures forall i :: 0 <= i < |sites| ==> sites[i].hasGroup
  {
    if |sites| > 0 {
      PlannedSitesHaveGroups(sites[..|sites| - 1], version, tree);
      assert forall i :: 0 <= i < |sites| - 1 ==> sites[i] == sites[..|sites| - 1][i];
    }
  }

  lemma StampIsStable(schedule: Schedule, disk: Disk, sites: seq<Site>, version: string)
    requires StampAll(schedule, disk, sites, version).Complete?
    ensures Stable(StampAll(schedule, disk, sites, version).disk.files, sites, version)
  {
    var p := PlanOf(sites, version, disk.files).value;
    PlanCovers(sites, version, disk.files);
    PlannedSitesHaveGroups(sites, version, disk.files);
    forall i | 0 <= i < |sites|
      ensures var files := StampAll(schedule, disk, sites, version).disk.files;
        && sites[i].rel in files && files[sites[i].rel].Text?
        && Captured(sites[i].anchor, files[sites[i].rel].text) == [version]
    {
      assert Reads(sites[i], p.bodies, version);
      assert sites[i].rel in p.originals;
      StampLeaves(schedule, disk, sites, version, sites[i].rel);
    }
  }

  /** Stamping the same version again writes no file, whatever would have failed. */
  lemma StampIsIdempotent(schedule: Schedule, disk: Disk, sites: seq<Site>, version: string, again: Schedule)
    requires StampAll(schedule, disk, sites, version).Complete?
    ensures var once := StampAll(schedule, disk, sites, version).disk;
            var twice := StampAll(again, once, sites, version);
      !twice.Refused? && twice.disk == once
      && if again(once.clock).Outside? then twice.Interrupted? else twice.Complete? && twice.written == []
  {
    StampIsStable(schedule, disk, sites, version);
    StableStampsNothing(again, StampAll(schedule, disk, sites, version).disk, sites, version);
  }
}
