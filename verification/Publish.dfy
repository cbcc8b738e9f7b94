/**
 The publisher: an ordered upload plan, checked for collisions before the first
 upload, and a pointer to the release that is written last.
 */
module Publish {
  import opened Outcomes
  import opened Json

  /** A release file: where it goes, its digest and size, and whether its key may be replaced. */
  datatype Item = Item(key: string, sha: string, size: nat, mutable: bool)

  /** What the bucket holds under a key: the bytes' digest and length, and the digest metadata if any. */
  datatype Stored = Stored(sha: string, size: nat, meta: Option<string>)

  type Remote = map<string, Stored>

  // ---- the plan ----------------------------------------------------------------

  const RELEASE_GPG := "apt/dists/umbra/Release.gpg"
  const RELEASE := "apt/dists/umbra/Release"
  const IN_RELEASE := "apt/dists/umbra/InRelease"

  /** Indices first, detached metadata next, the signed index last. */
  function Rank(key: string): nat {
    if key == RELEASE_GPG then 1 else if key == RELEASE then 2 else if key == IN_RELEASE then 3 else 0
  }

  predicate OrderedBefore(a: Item, b: Item) {
    Rank(a.key) < Rank(b.key) || (Rank(a.key) == Rank(b.key) && Before(Py(a.key), Py(b.key)))
  }

  /** `metadata.sort(key=order)`. */
  function InsertItem(x: Item, sorted: seq<Item>): seq<Item> {
    if |sorted| == 0 || OrderedBefore(x, sorted[0]) then [x] + sorted
    else [sorted[0]] + InsertItem(x, sorted[1..])
  }

  function SortItems(items: seq<Item>): seq<Item> {
    if |items| == 0 then [] else InsertItem(items[|items| - 1], SortItems(items[..|items| - 1]))
  }

  predicate DistinctKeys(items: seq<Item>) {
    forall i, j :: 0 <= i < j < |items| ==> items[i].key != items[j].key
  }

  /** The facts the acceptance manifest binds the plan to. */
  datatype Accepted = Accepted(isoSha: string, isoSize: nat, bundleSha: string)

  /**
   The plan: the image and its sidecars, the evidence, the key and the package
   pool, then the sorted metadata.  `bundle` is the evidence bundle's position.
   */
  function PlanOf(accepted: Accepted, iso: Item, fixed: seq<Item>, bundle: nat, pool: seq<Item>,
          metadata: seq<Item>): Result<seq<Item>>
    requires bundle < |fixed|
  {
    var sorted := SortItems(metadata);
    var objects := [iso] + fixed + pool + sorted;
    if iso.sha != accepted.isoSha || iso.size != accepted.isoSize then Err("ISO differs from the accepted artifact")
    else if fixed[bundle].sha != accepted.bundleSha then Err("Evidence bundle differs from the accepted artifact")
    else if |pool| == 0 then Err("APT package/source pool is empty")
    else if |sorted| == 0 || sorted[|sorted| - 1].key != IN_RELEASE then Err("APT signed InRelease is absent")
    else if !DistinctKeys(objects) then Err("Duplicate publication object key")
    else Ok(objects)
  }

  /** The plan built list by list, as the publisher does. */
  method PublicationPlan(accepted: Accepted, iso: Item, fixed: seq<Item>, bundle: nat, pool: seq<Item>,
          metadata: seq<Item>)
    returns (plan: Result<seq<Item>>)
    requires bundle < |fixed|
    ensures plan == PlanOf(accepted, iso, fixed, bundle, pool, metadata)
  {
    if iso.sha != accepted.isoSha || iso.size != accepted.isoSize {
      return Err("ISO differs from the accepted artifact");
    }
    var objects := [iso];
    objects := objects + fixed;
    if fixed[bundle].sha != accepted.bundleSha {
      return Err("Evidence bundle differs from the accepted artifact");
    }
    if |pool| == 0 {
      return Err("APT package/source pool is empty");
    }
    objects := objects + pool;
    var sorted := SortItems(metadata);
    if |sorted| == 0 || sorted[|sorted| - 1].key != IN_RELEASE {
      return Err("APT signed InRelease is absent");
    }
    objects := objects + sorted;
    if !DistinctKeys(objects) {
      return Err("Duplicate publication object key");
    }
    return Ok(objects);
  }

  // ---- comparing with the bucket ---------------------------------------------------

  /** The stored object counts as this item: same length, and the metadata digest, or failing that the bytes, agree. */
  predicate Matches(remote: Remote, item: Item) {
    && item.key in remote && remote[item.key].size == item.size
    && (match remote[item.key].meta
        case Some(m) => if m == "" then remote[item.key].sha == item.sha else m == item.sha
        case None => remote[item.key].sha == item.sha)
  }

  /** `existing_matches` raises: the key is taken by something else and may not be replaced. */
  predicate Collides(remote: Remote, item: Item) {
    item.key in remote && !Matches(remote, item) && !item.mutable
  }

  /** What an upload of this item leaves under its key. */
  function Uploaded(item: Item): Stored {
    Stored(item.sha, item.size, Some(item.sha))
  }

  // ---- publishing, with an arbitrary outcome for each upload ---------------------------

  /** How one upload ends: stored; lost with or without effect; or stored wrongly. */
  datatype Outcome = Stores | FailsBefore | FailsAfter | Mangles(wrong: Stored)

  type Schedule = nat -> Outcome

  function AfterUpload(remote: Remote, item: Item, o: Outcome): Remote {
    match o
    case FailsBefore => remote
    case Mangles(wrong) => remote[item.key := wrong]
    case _ => remote[item.key := Uploaded(item)]
  }

  /** `head_object` right after an upload agrees with the item. */
  predicate ReadsBack(remote: Remote, item: Item) {
    item.key in remote && remote[item.key].size == item.size && remote[item.key].meta == Some(item.sha)
  }

  datatype Ending =
    | Unanswered(key: string)
    | Collision(key: string)
    | UploadFailed(key: string)
    | IsoMismatch
    | PointerFailed
    | Published

  /** A run's bucket states, one per effect and starting with the first, and how it ended. */
  datatype Run = Run(states: seq<Remote>, ending: Ending)

  function Final(r: Run): Remote
    requires |r.states| > 0
  {
    r.states[|r.states| - 1]
  }

  /** The uploads of the plan from position `n`; `matched` was decided before the first of them. */
  function UploadFrom(schedule: Schedule, objects: seq<Item>, matched: set<string>, n: nat, remote: Remote): (r: Run)
    requires n <= |objects|
    ensures |r.states| > 0 && r.states[0] == remote
    decreases |objects| - n
  {
    if n == |objects| then Run([remote], Published)
    else if objects[n].key in matched then UploadFrom(schedule, objects, matched, n + 1, remote)
    else
      var next := AfterUpload(remote, objects[n], schedule(n));
      if schedule(n).FailsBefore? || schedule(n).FailsAfter? || !ReadsBack(next, objects[n]) then
        Run([remote, next], UploadFailed(objects[n].key))
      else
        var r := UploadFrom(schedule, objects, matched, n + 1, next);
        Run([remote] + r.states, r.ending)
  }

  function MatchedKeys(remote: Remote, objects: seq<Item>): set<string> {
    set i | 0 <= i < |objects| && Matches(remote, objects[i]) :: objects[i].key
  }

  /** The first item that collides; the number of items when none does. */
  function FirstCollision(remote: Remote, objects: seq<Item>): (k: nat)
    ensures k <= |objects|
    ensures k < |objects| ==> Collides(remote, objects[k])
    ensures forall i :: 0 <= i < k ==> !Collides(remote, objects[i])
  {
    if |objects| == 0 || Collides(remote, objects[0]) then 0 else 1 + FirstCollision(remote, objects[1..])
  }

  /** Streaming the image back and writing the pointer. */
  function FinishRun(schedule: Schedule, objects: seq<Item>, iso: Item, pointer: Option<Item>, r: Run): (out: Run)
    requires |r.states| > 0
    ensures |out.states| > 0
  {
    if r.ending != Published then r
    else if iso.key !in Final(r) || Final(r)[iso.key].sha != iso.sha then r.(ending := IsoMismatch)
    else
      match pointer
      case None => r
      case Some(p) =>
        var next := AfterUpload(Final(r), p, schedule(|objects|));
        var failed := schedule(|objects|).FailsBefore? || schedule(|objects|).FailsAfter?
                      || p.key !in next || next[p.key].meta != Some(p.sha);
        Run(r.states + [next], if failed then PointerFailed else Published)
  }

  function PublishRun(schedule: Schedule, objects: seq<Item>, iso: Item, pointer: Option<Item>,
          remote: Remote): (r: Run)
    ensures |r.states| > 0
  {
    var k := FirstCollision(remote, objects);
    if k < |objects| then Run([remote], Collision(objects[k].key))
    else FinishRun(schedule, objects, iso, pointer,
        UploadFrom(schedule, objects, MatchedKeys(remote, objects), 0, remote))
  }

  /** Which requests of the comparison fail for a reason other than a missing object. */
  type Denied = nat -> bool

  function FirstDenied(denied: Denied, n: nat, i: nat): (d: nat)
    requires i <= n
    ensures i <= d <= n && (d < n ==> denied(d))
    ensures forall j :: i <= j < d ==> !denied(j)
    decreases n - i
  {
    if i == n || denied(i) then i else FirstDenied(denied, n, i + 1)
  }

  /** A run whose comparison may go unanswered, which ends it before any upload. */
  function ComparedRun(denied: Denied, schedule: Schedule, objects: seq<Item>, iso: Item, pointer: Option<Item>,
          remote: Remote): Run
  {
    var d := FirstDenied(denied, |objects|, 0);
    if d < |objects| && d <= FirstCollision(remote, objects) then Run([remote], Unanswered(objects[d].key))
    else PublishRun(schedule, objects, iso, pointer, remote)
  }

  // ---- the client's loop --------------------------------------------------------------

  class Bucket {
    const denied: Denied
    const schedule: Schedule
    var objects: Remote
    ghost var states: seq<Remote>   // every state the bucket went through

    constructor (denied: Denied, schedule: Schedule, objects: Remote)
      ensures this.denied == denied && this.schedule == schedule && this.objects == objects && states == [objects]
    {
      this.denied := denied;
      this.schedule := schedule;
      this.objects := objects;
      states := [objects];
    }

    method Upload(item: Item, n: nat) returns (raised: bool)
      modifies this
      ensures objects == AfterUpload(old(objects), item, schedule(n))
      ensures states == old(states) + [objects]
      ensures raised <==> schedule(n).FailsBefore? || schedule(n).FailsAfter?
    {
      objects := AfterUpload(objects, item, schedule(n));
      states := states + [objects];
      raised := schedule(n).FailsBefore? || schedule(n).FailsAfter?;
    }

    /** The comparison of the whole plan with the bucket, before any upload. */
    method Compare(plan: seq<Item>) returns (stop: Option<Ending>, matches: set<string>)
      ensures var d, k := FirstDenied(denied, |plan|, 0), FirstCollision(objects, plan);
        if d < |plan| && d <= k then stop == Some(Unanswered(plan[d].key))
        else if k < |plan| then stop == Some(Collision(plan[k].key))
        else stop == None && matches == MatchedKeys(objects, plan)
    {
      matches := {};
      for i := 0 to |plan|
        invariant forall j :: 0 <= j < i ==> !Collides(objects, plan[j])
        invariant FirstDenied(denied, |plan|, 0) == FirstDenied(denied, |plan|, i)
        invariant matches == set j | 0 <= j < i && Matches(objects, plan[j]) :: plan[j].key
      {
        if denied(i) {
          NotBefore(objects, plan, i);
          return Some(Unanswered(plan[i].key)), matches;
        }
        if Collides(objects, plan[i]) {
          FirstIs(objects, plan, i);
          return Some(Collision(plan[i].key)), matches;
        }
        if Matches(objects, plan[i]) {
          matches := matches + {plan[i].key};
        }
      }
      NoneCollides(objects, plan);
      return None, matches;
    }

    method UploadPlan(plan: seq<Item>, matches: set<string>) returns (ending: Ending)
      requires states == [objects]
      modifies this
      ensures Run(states, ending) == UploadFrom(schedule, plan, matches, 0, old(objects))
      ensures |states| > 0 && objects == states[|states| - 1]
    {
      ghost var whole, start := UploadFrom(schedule, plan, matches, 0, objects), objects;
      assert Continued([], whole) == whole;
      for n := 0 to |plan|
        invariant |states| > 0 && objects == states[|states| - 1]
        invariant Continued(states[..|states| - 1], UploadFrom(schedule, plan, matches, n, objects)) == whole
      {
        if plan[n].key !in matches {
          ghost var before, was := states, objects;
          var raised := Upload(plan[n], n);
          assert before == before[..|before| - 1] + [was] == states[..|states| - 1];
          if raised || !ReadsBack(objects, plan[n]) {
            assert before[..|before| - 1] + [was, objects] == states;
            return UploadFailed(plan[n].key);
          }
          ContinuedTwice(before[..|before| - 1], was, UploadFrom(schedule, plan, matches, n + 1, objects));
        }
      }
      assert states[..|states| - 1] + [objects] == states;
      return Published;
    }

    method Publish(plan: seq<Item>, iso: Item, pointer: Option<Item>) returns (ending: Ending)
      requires states == [objects]
      modifies this
      ensures Run(states, ending) == ComparedRun(denied, schedule, plan, iso, pointer, old(objects))
      ensures |states| > 0 && objects == states[|states| - 1]
    {
      var stop, matches := Compare(plan);
      if stop.Some? {
        return stop.value;
      }
      ending := UploadPlan(plan, matches);
      if ending != Published {
        return;
      }
      if iso.key !in objects || objects[iso.key].sha != iso.sha {
        return IsoMismatch;
      }
      if pointer.Some? {
        var p := pointer.value;
        var raised := Upload(p, |plan|);
        if raised || p.key !in objects || objects[p.key].meta != Some(p.sha) {
          return PointerFailed;
        }
      }
      return Published;
    }
  }

  /** A run with earlier states in front of it. */
  function Continued(before: seq<Remote>, r: Run): Run {
    Run(before + r.states, r.ending)
  }

  lemma ContinuedTwice(before: seq<Remote>, was: Remote, r: Run)
    ensures Continued(before, Run([was] + r.states, r.ending)) == Continued(before + [was], r)
  {
    assert before + ([was] + r.states) == before + [was] + r.states;
  }

  lemma {:induction false} FirstIs(remote: Remote, objects: seq<Item>, i: nat)
    requires i < |objects| && Collides(remote, objects[i])
    requires forall j :: 0 <= j < i ==> !Collides(remote, objects[j])
    ensures FirstCollision(remote, objects) == i
  {
    if i > 0 {
      FirstIs(remote, objects[1..], i - 1);
    }
  }

  lemma NotBefore(remote: Remote, objects: seq<Item>, i: nat)
    requires i < |objects| && forall j :: 0 <= j < i ==> !Collides(remote, objects[j])
    ensures i <= FirstCollision(remote, objects)
  {
  }

  lemma NoneCollides(remote: Remote, objects: seq<Item>)
    requires forall j :: 0 <= j < |objects| ==> !Collides(remote, objects[j])
    ensures FirstCollision(remote, objects) == |objects|
  {
  }
}
