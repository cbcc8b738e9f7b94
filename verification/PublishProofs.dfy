/** The publisher's promises at every state a run goes through, so for a crash at any point. */
module PublishProofs {
  import opened Outcomes
  import opened Json
  import opened JsonCanonical
  import opened Publish

  // ---- the order of the plan ----------------------------------------------------------

  /** The publication order is a strict weak order. */
  lemma OrderIsWeak(a: Item, b: Item, c: Item)
    ensures !(OrderedBefore(a, b) && OrderedBefore(b, a))
    ensures OrderedBefore(a, b) && !OrderedBefore(c, b) ==> OrderedBefore(a, c)
  {
    var x, y, z := Py(a.key), Py(b.key), Py(c.key);
    BeforeTotal(x, y);
    BeforeTotal(z, y);
    if Before(x, y) && Before(y, z) {
      BeforeTransitive(x, y, z);
    }
  }

  /** An object counts as present by its length and by its digest metadata, or by its bytes when it has none. */
  lemma MatchesIff(remote: Remote, item: Item)
    ensures Matches(remote, item) <==>
      && item.key in remote && remote[item.key].size == item.size
      && var stored := remote[item.key];
      (if stored.meta.None? || stored.meta.value == "" then stored.sha else stored.meta.value) == item.sha
  {
  }

  /** What an upload leaves: nothing when it failed before its effect, else the item or what was stored instead. */
  lemma UploadLeaves(remote: Remote, item: Item, o: Outcome)
    ensures AfterUpload(remote, item, o) ==
      if o.FailsBefore? then remote
      else remote[item.key := if o.Mangles? then o.wrong else Stored(item.sha, item.size, Some(item.sha))]
  {
  }

  /** No later item is ordered before an earlier one. */
  predicate InOrder(items: seq<Item>) {
    forall i, j :: 0 <= i < j < |items| ==> !OrderedBefore(items[j], items[i])
  }

  lemma {:induction false} InsertItemSorted(x: Item, sorted: seq<Item>)
    requires InOrder(sorted)
    ensures InOrder(InsertItem(x, sorted))
    ensures multiset(InsertItem(x, sorted)) == multiset(sorted) + multiset{x}
  {
    var r := InsertItem(x, sorted);
    if |sorted| == 0 {
    } else if OrderedBefore(x, sorted[0]) {
      forall j | 0 < j < |r|
        ensures !OrderedBefore(r[j], x)
      {
        OrderIsWeak(x, sorted[0], r[j]);
        OrderIsWeak(x, r[j], x);
        assert j > 1 ==> !OrderedBefore(sorted[j - 1], sorted[0]);
      }
    } else {
      InsertItemSorted(x, sorted[1..]);
      assert sorted == [sorted[0]] + sorted[1..];
      forall j | 0 < j < |r|
        ensures !OrderedBefore(r[j], sorted[0])
      {
        assert r[j] == r[1..][j - 1];
        assert r[j] in multiset(InsertItem(x, sorted[1..]));
        assert r[j] == x || r[j] in sorted[1..];
      }
    }
  }

  /** Sorting the metadata keeps every item and puts it in publication order. */
  lemma {:induction false} SortItemsSorts(items: seq<Item>)
    ensures InOrder(SortItems(items)) && multiset(SortItems(items)) == multiset(items)
  {
    if |items| > 0 {
      var init := items[..|items| - 1];
      SortItemsSorts(init);
      InsertItemSorted(items[|items| - 1], SortItems(init));
      assert items == init + [items[|items| - 1]];
    }
  }

  /** The signed index is the last of the sorted metadata exactly when the metadata has one. */
  lemma InReleaseLast(metadata: seq<Item>)
    ensures var sorted := SortItems(metadata);
      (|sorted| > 0 && sorted[|sorted| - 1].key == IN_RELEASE) <==> exists x :: x in metadata && x.key == IN_RELEASE
  {
    var sorted := SortItems(metadata);
    SortItemsSorts(metadata);
    SameMembers(sorted, metadata);
    if x :| x in metadata && x.key == IN_RELEASE {
      var i :| 0 <= i < |sorted| && sorted[i] == x;
      LastOutranks(sorted, i);
    }
    if |sorted| > 0 && sorted[|sorted| - 1].key == IN_RELEASE {
      assert sorted[|sorted| - 1] in sorted;
    }
  }

  lemma SameMembers(a: seq<Item>, b: seq<Item>)
    requires multiset(a) == multiset(b)
    ensures forall x :: x in a <==> x in b
  {
    forall x
      ensures x in a <==> x in b
    {
      assert x in a <==> x in multiset(a);
    }
  }

  lemma LastOutranks(sorted: seq<Item>, i: nat)
    requires InOrder(sorted) && i < |sorted| && Rank(sorted[i].key) == 3
    ensures sorted[|sorted| - 1].key == IN_RELEASE
  {
    if i < |sorted| - 1 {
      assert !OrderedBefore(sorted[|sorted| - 1], sorted[i]);
    }
  }

  /** A plan names each key once, holds the accepted image, and ends with the signed index. */
  lemma PlanShape(accepted: Accepted, iso: Item, fixed: seq<Item>, bundle: nat, pool: seq<Item>, metadata: seq<Item>)
    requires bundle < |fixed| && PlanOf(accepted, iso, fixed, bundle, pool, metadata).Ok?
    ensures var plan := PlanOf(accepted, iso, fixed, bundle, pool, metadata).value;
      && DistinctKeys(plan) && |plan| > 1 && plan[0] == iso && iso.sha == accepted.isoSha
      && plan[|plan| - 1].key == IN_RELEASE
      && multiset(plan) == multiset{iso} + multiset(fixed) + multiset(pool) + multiset(metadata)
  {
    SortItemsSorts(metadata);
  }

  // ---- every state of a run --------------------------------------------------------------

  /** Digests are never empty. */
  predicate RealDigests(objects: seq<Item>) {
    forall i :: 0 <= i < |objects| ==> objects[i].sha != ""
  }

  /** The bucket differs from where it started at this key. */
  predicate Changed(start: Remote, now: Remote, key: string) {
    key in start + now && (key !in start || key !in now || start[key] != now[key])
  }

  /** The key belongs to one of the first `n` items and did not hold it at the start. */
  predicate ToUpload(start: Remote, objects: seq<Item>, n: nat, key: string) {
    n <= |objects| && key !in MatchedKeys(start, objects) && exists i :: 0 <= i < n && objects[i].key == key
  }

  predicate PresentUpTo(now: Remote, objects: seq<Item>, n: nat) {
    n <= |objects| && forall i :: 0 <= i < n ==> Matches(now, objects[i])
  }

  /** What holds before the upload at position `n`: earlier items are there, later ones untouched. */
  ghost predicate UpTo(start: Remote, now: Remote, objects: seq<Item>, n: nat) {
    && PresentUpTo(now, objects, n)
    && forall key :: Changed(start, now, key) ==> ToUpload(start, objects, n, key)
  }

  /** What holds in any state: a changed key is some item's, it was not matched, and everything before it is there. */
  ghost predicate Orderly(start: Remote, now: Remote, objects: seq<Item>) {
    forall key :: Changed(start, now, key) ==> exists i :: 0 <= i < |objects| && InTurn(start, now, objects, i, key)
  }

  predicate InTurn(start: Remote, now: Remote, objects: seq<Item>, i: nat, key: string) {
    i < |objects| && objects[i].key == key && key !in MatchedKeys(start, objects) && PresentUpTo(now, objects, i)
  }

  lemma UpToIsOrderly(start: Remote, now: Remote, objects: seq<Item>, n: nat)
    requires UpTo(start, now, objects, n)
    ensures Orderly(start, now, objects)
  {
    forall key | Changed(start, now, key)
      ensures exists i :: 0 <= i < |objects| && InTurn(start, now, objects, i, key)
    {
      assert ToUpload(start, objects, n, key);
      var i :| 0 <= i < n && objects[i].key == key;
      assert InTurn(start, now, objects, i, key);
    }
  }

  lemma UploadKeepsOthers(now: Remote, item: Item, o: Outcome, other: Item)
    requires item.key != other.key
    ensures Matches(AfterUpload(now, item, o), other) <==> Matches(now, other)
  {
  }

  lemma UploadChanges(start: Remote, now: Remote, item: Item, o: Outcome, key: string)
    requires Changed(start, AfterUpload(now, item, o), key)
    ensures key == item.key || Changed(start, now, key)
  {
  }

  /** One upload: the state after it is orderly, and when it read back the next position is reached. */
  lemma UploadStep(start: Remote, now: Remote, objects: seq<Item>, n: nat, o: Outcome)
    requires DistinctKeys(objects) && RealDigests(objects)
    requires UpTo(start, now, objects, n) && n < |objects| && objects[n].key !in MatchedKeys(start, objects)
    ensures Orderly(start, AfterUpload(now, objects[n], o), objects)
    ensures ReadsBack(AfterUpload(now, objects[n], o), objects[n])
      ==> UpTo(start, AfterUpload(now, objects[n], o), objects, n + 1)
  {
    var next := AfterUpload(now, objects[n], o);
    forall j | 0 <= j < n
      ensures Matches(next, objects[j])
    {
      UploadKeepsOthers(now, objects[n], o, objects[j]);
    }
    assert PresentUpTo(next, objects, n);
    forall key | Changed(start, next, key)
      ensures ToUpload(start, objects, n + 1, key)
      ensures exists i :: 0 <= i < |objects| && InTurn(start, next, objects, i, key)
    {
      UploadChanges(start, now, objects[n], o, key);
      if key == objects[n].key {
        assert InTurn(start, next, objects, n, key);
      } else {
        assert ToUpload(start, objects, n, key);
        var i :| 0 <= i < n && objects[i].key == key;
        assert InTurn(start, next, objects, i, key);
      }
    }
  }

  /** An item matched at the start is still as it was. */
  lemma MatchedStays(start: Remote, now: Remote, objects: seq<Item>, n: nat)
    requires UpTo(start, now, objects, n) && n < |objects| && objects[n].key in MatchedKeys(start, objects)
    requires DistinctKeys(objects)
    ensures UpTo(start, now, objects, n + 1)
  {
    var key := objects[n].key;
    var i :| 0 <= i < |objects| && Matches(start, objects[i]) && objects[i].key == key;
    assert i == n;
    assert !ToUpload(start, objects, n, key);
    assert !Changed(start, now, key);
    forall other | Changed(start, now, other)
      ensures ToUpload(start, objects, n + 1, other)
    {
      assert ToUpload(start, objects, n, other);
    }
  }

  /** Every state of these uploads is orderly, and a run that got through them has every item. */
  ghost predicate GoodRun(start: Remote, objects: seq<Item>, r: Run) {
    && |r.states| > 0
    && (forall t :: 0 <= t < |r.states| ==> Orderly(start, r.states[t], objects))
    && (r.ending == Published ==> UpTo(start, Final(r), objects, |objects|))
    && (r.ending == Published || r.ending.UploadFailed?)
  }

  lemma GoodRunGrows(start: Remote, now: Remote, objects: seq<Item>, r: Run)
    requires GoodRun(start, objects, r) && Orderly(start, now, objects)
    ensures GoodRun(start, objects, Run([now] + r.states, r.ending))
  {
  }

  lemma {:induction false} UploadStates(schedule: Schedule, start: Remote, now: Remote, objects: seq<Item>, n: nat)
    requires DistinctKeys(objects) && RealDigests(objects) && UpTo(start, now, objects, n)
    ensures GoodRun(start, objects, UploadFrom(schedule, objects, MatchedKeys(start, objects), n, now))
    decreases |objects| - n
  {
    UpToIsOrderly(start, now, objects, n);
    if n < |objects| {
      if objects[n].key in MatchedKeys(start, objects) {
        MatchedStays(start, now, objects, n);
        UploadStates(schedule, start, now, objects, n + 1);
      } else {
        UploadOne(schedule, start, now, objects, n);
      }
    }
  }

  lemma {:induction false} UploadOne(schedule: Schedule, start: Remote, now: Remote, objects: seq<Item>, n: nat)
    requires DistinctKeys(objects) && RealDigests(objects) && UpTo(start, now, objects, n)
    requires n < |objects| && objects[n].key !in MatchedKeys(start, objects)
    ensures GoodRun(start, objects, UploadFrom(schedule, objects, MatchedKeys(start, objects), n, now))
    decreases |objects| - n, 0
  {
    var next := AfterUpload(now, objects[n], schedule(n));
    UpToIsOrderly(start, now, objects, n);
    UploadStep(start, now, objects, n, schedule(n));
    if schedule(n).FailsBefore? || schedule(n).FailsAfter? || !ReadsBack(next, objects[n]) {
      assert UploadFrom(schedule, objects, MatchedKeys(start, objects), n, now)
          == Run([now, next], UploadFailed(objects[n].key));
    } else {
      UploadStates(schedule, start, next, objects, n + 1);
      GoodRunGrows(start, now, objects, UploadFrom(schedule, objects, MatchedKeys(start, objects), n + 1, next));
    }
  }

  lemma NothingChanged(start: Remote, objects: seq<Item>)
    ensures UpTo(start, start, objects, 0)
  {
  }

  /** A run that starts uploading has no collision anywhere in its plan. */
  lemma NoCollisionLeft(remote: Remote, objects: seq<Item>, i: nat)
    requires FirstCollision(remote, objects) == |objects| && i < |objects|
    ensures !Collides(remote, objects[i])
  {
  }

  // ---- main results --------------------------------------------------------------------

  /** Any collision anywhere in the plan: the run stops before its first upload. */
  lemma CollisionMeansNoUpload(schedule: Schedule, objects: seq<Item>, iso: Item, pointer: Option<Item>, remote: Remote)
    ensures (exists i :: 0 <= i < |objects| && objects[i].key in remote && !objects[i].mutable
                         && !Matches(remote, objects[i]))
            <==> PublishRun(schedule, objects, iso, pointer, remote).ending.Collision?
    ensures PublishRun(schedule, objects, iso, pointer, remote).ending.Collision?
            ==> PublishRun(schedule, objects, iso, pointer, remote).states == [remote]
  {
    var k := FirstCollision(remote, objects);
    if k < |objects| {
      assert Collides(remote, objects[k]);
    } else {
      assert forall i :: 0 <= i < |objects| ==> !Collides(remote, objects[i]);
      UploadEndsWithoutCollision(schedule, objects, MatchedKeys(remote, objects), 0, remote);
    }
  }

  lemma {:induction false} UploadEndsWithoutCollision(schedule: Schedule, objects: seq<Item>, matched: set<string>,
          n: nat, remote: Remote)
    requires n <= |objects|
    ensures !UploadFrom(schedule, objects, matched, n, remote).ending.Collision?
    decreases |objects| - n
  {
    if n < |objects| {
      if objects[n].key in matched {
        UploadEndsWithoutCollision(schedule, objects, matched, n + 1, remote);
      } else {
        UploadEndsWithoutCollision(schedule, objects, matched, n + 1, AfterUpload(remote, objects[n], schedule(n)));
      }
    }
  }

  /** The last effect of a run, if it is the pointer's. */
  lemma RunStates(schedule: Schedule, objects: seq<Item>, iso: Item, pointer: Option<Item>, remote: Remote, t: nat)
    requires DistinctKeys(objects) && RealDigests(objects)
    requires t < |PublishRun(schedule, objects, iso, pointer, remote).states|
    ensures var r := PublishRun(schedule, objects, iso, pointer, remote);
      || Orderly(remote, r.states[t], objects)
      || (pointer.Some? && t == |r.states| - 1 && t > 0 && UpTo(remote, r.states[t - 1], objects, |objects|)
          && iso.key in r.states[t - 1] && r.states[t - 1][iso.key].sha == iso.sha
          && r.states[t] == AfterUpload(r.states[t - 1], pointer.value, schedule(|objects|)))
  {
    NothingChanged(remote, objects);
    UpToIsOrderly(remote, remote, objects, 0);
    if FirstCollision(remote, objects) == |objects| {
      UploadStates(schedule, remote, remote, objects, 0);
    }
  }

  /**
   At every state of every run: a key whose content changed belongs to a mutable
   item or to the pointer, or held nothing before.  So no immutable object is
   ever replaced, and nothing outside the plan is touched.
   */
  lemma ImmutableObjectsStay(schedule: Schedule, objects: seq<Item>, iso: Item, pointer: Option<Item>,
          remote: Remote, t: nat, key: string)
    requires DistinctKeys(objects) && RealDigests(objects)
    requires t < |PublishRun(schedule, objects, iso, pointer, remote).states|
    requires Changed(remote, PublishRun(schedule, objects, iso, pointer, remote).states[t], key)
    ensures (pointer.Some? && key == pointer.value.key)
            || exists i :: 0 <= i < |objects| && objects[i].key == key && (objects[i].mutable || key !in remote)
  {
    var r := PublishRun(schedule, objects, iso, pointer, remote);
    RunStates(schedule, objects, iso, pointer, remote, t);
    var now := r.states[t];
    if !Orderly(remote, now, objects) {
      now := r.states[t - 1];
      UploadChanges(remote, now, pointer.value, schedule(|objects|), key);
      UpToIsOrderly(remote, now, objects, |objects|);
    }
    if !(pointer.Some? && key == pointer.value.key) {
      var i :| 0 <= i < |objects| && InTurn(remote, now, objects, i, key);
      assert FirstCollision(remote, objects) < |objects| ==> r.states == [remote];
      NoCollisionLeft(remote, objects, i);
    }
  }

  /**
   Uploads are visible in plan order: in any state where the object at position
   `n` has changed, every object before it is present.  With the plan's order,
   InRelease changes only when every other object is there.
   */
  lemma UploadsAreInOrder(schedule: Schedule, objects: seq<Item>, iso: Item, pointer: Option<Item>, remote: Remote,
          t: nat, n: nat)
    requires DistinctKeys(objects) && RealDigests(objects) && n < |objects|
    requires pointer.Some? ==> forall i :: 0 <= i < |objects| ==> objects[i].key != pointer.value.key
    requires t < |PublishRun(schedule, objects, iso, pointer, remote).states|
    requires Changed(remote, PublishRun(schedule, objects, iso, pointer, remote).states[t], objects[n].key)
    ensures forall j :: 0 <= j < n ==> Matches(PublishRun(schedule, objects, iso, pointer, remote).states[t],
      objects[j])
  {
    var r := PublishRun(schedule, objects, iso, pointer, remote);
    RunStates(schedule, objects, iso, pointer, remote, t);
    if Orderly(remote, r.states[t], objects) {
      var i :| 0 <= i < |objects| && InTurn(remote, r.states[t], objects, i, objects[n].key);
      assert i == n;
    } else {
      forall j | 0 <= j < n
        ensures Matches(r.states[t], objects[j])
      {
        UploadKeepsOthers(r.states[t - 1], pointer.value, schedule(|objects|), objects[j]);
      }
    }
  }

  /** When the pointer has changed, every object is there, the image's bytes included, and nothing follows. */
  lemma PointerComesLast(schedule: Schedule, objects: seq<Item>, iso: Item, pointer: Item, remote: Remote, t: nat)
    requires DistinctKeys(objects) && RealDigests(objects) && iso in objects
    requires forall i :: 0 <= i < |objects| ==> objects[i].key != pointer.key
    requires t < |PublishRun(schedule, objects, iso, Some(pointer), remote).states|
    requires Changed(remote, PublishRun(schedule, objects, iso, Some(pointer), remote).states[t], pointer.key)
    ensures var now := PublishRun(schedule, objects, iso, Some(pointer), remote).states[t];
      && (forall i :: 0 <= i < |objects| ==> Matches(now, objects[i]))
      && now[iso.key].sha == iso.sha
      && t == |PublishRun(schedule, objects, iso, Some(pointer), remote).states| - 1
  {
    var r := PublishRun(schedule, objects, iso, Some(pointer), remote);
    RunStates(schedule, objects, iso, Some(pointer), remote, t);
    assert !Orderly(remote, r.states[t], objects);
    forall j | 0 <= j < |objects|
      ensures Matches(r.states[t], objects[j])
    {
      UploadKeepsOthers(r.states[t - 1], pointer, schedule(|objects|), objects[j]);
    }
    var i :| 0 <= i < |objects| && objects[i] == iso;
  }

  /** With any plan the publisher builds: the signed index changes only when every other plan object is there. */
  lemma SignedIndexIsLast(accepted: Accepted, iso: Item, fixed: seq<Item>, bundle: nat, pool: seq<Item>,
          metadata: seq<Item>,
                          plan: seq<Item>, schedule: Schedule, pointer: Option<Item>, remote: Remote, t: nat)
    requires bundle < |fixed| && PlanOf(accepted, iso, fixed, bundle, pool, metadata) == Ok(plan)
    requires RealDigests(plan) && (pointer.Some? ==> forall i :: 0 <= i < |plan| ==> plan[i].key != pointer.value.key)
    requires t < |PublishRun(schedule, plan, iso, pointer, remote).states|
    requires Changed(remote, PublishRun(schedule, plan, iso, pointer, remote).states[t], IN_RELEASE)
    ensures forall i :: 0 <= i < |plan| && plan[i].key != IN_RELEASE
                ==> Matches(PublishRun(schedule, plan, iso, pointer, remote).states[t], plan[i])
  {
    PlanShape(accepted, iso, fixed, bundle, pool, metadata);
    UploadsAreInOrder(schedule, plan, iso, pointer, remote, t, |plan| - 1);
  }

  /**
   With any plan the publisher builds the pointer is written last: in any state
   where it has changed, every plan object is present and the image's stored
   bytes have the accepted digest.
   */
  lemma PointerIsLast(accepted: Accepted, iso: Item, fixed: seq<Item>, bundle: nat, pool: seq<Item>,
          metadata: seq<Item>,
                      plan: seq<Item>, schedule: Schedule, pointer: Item, remote: Remote, t: nat)
    requires bundle < |fixed| && PlanOf(accepted, iso, fixed, bundle, pool, metadata) == Ok(plan)
    requires RealDigests(plan) && forall i :: 0 <= i < |plan| ==> plan[i].key != pointer.key
    requires t < |PublishRun(schedule, plan, iso, Some(pointer), remote).states|
    requires Changed(remote, PublishRun(schedule, plan, iso, Some(pointer), remote).states[t], pointer.key)
    ensures var now := PublishRun(schedule, plan, iso, Some(pointer), remote).states[t];
      && (forall i :: 0 <= i < |plan| ==> Matches(now, plan[i]))
      && iso.key in now && now[iso.key].sha == accepted.isoSha
      && t == |PublishRun(schedule, plan, iso, Some(pointer), remote).states| - 1
  {
    PlanShape(accepted, iso, fixed, bundle, pool, metadata);
    PointerComesLast(schedule, plan, iso, pointer, remote, t);
    assert plan[0] == iso && Matches(PublishRun(schedule, plan, iso, Some(pointer), remote).states[t], plan[0]);
  }

  /**
   The comparison trusts digest metadata.  Of the objects that count as present,
   the bytes are the planned ones exactly when no stored metadata is wrong.
   */
  lemma BytesIffMetadataHonest(now: Remote, objects: seq<Item>)
    requires PresentUpTo(now, objects, |objects|) && RealDigests(objects)
    ensures (forall i :: 0 <= i < |objects| ==> now[objects[i].key].sha == objects[i].sha)
      <==>
      (forall i :: 0 <= i < |objects| ==>
         now[objects[i].key].meta in {None, Some(""), Some(now[objects[i].key].sha)})
  {
    forall i | 0 <= i < |objects|
      ensures now[objects[i].key].sha == objects[i].sha
          <==> now[objects[i].key].meta in {None, Some(""), Some(now[objects[i].key].sha)}
    {
      assert Matches(now, objects[i]);
    }
  }

  // ---- a second run ---------------------------------------------------------------------

  lemma {:induction false} NothingToUpload(schedule: Schedule, objects: seq<Item>, n: nat, remote: Remote)
    requires n <= |objects| && forall i :: 0 <= i < |objects| ==> Matches(remote, objects[i])
    ensures UploadFrom(schedule, objects, MatchedKeys(remote, objects), n, remote) == Run([remote], Published)
    decreases |objects| - n
  {
    if n < |objects| {
      assert objects[n].key in MatchedKeys(remote, objects);
      NothingToUpload(schedule, objects, n + 1, remote);
    }
  }

  lemma PublishedIsComplete(schedule: Schedule, objects: seq<Item>, iso: Item, pointer: Item, remote: Remote)
    requires DistinctKeys(objects) && RealDigests(objects) && iso in objects
    requires forall i :: 0 <= i < |objects| ==> objects[i].key != pointer.key
    requires PublishRun(schedule, objects, iso, Some(pointer), remote).ending == Published
    ensures var now := Final(PublishRun(schedule, objects, iso, Some(pointer), remote));
      && (forall i :: 0 <= i < |objects| ==> Matches(now, objects[i]))
      && iso.key in now && now[iso.key].sha == iso.sha
  {
    NothingChanged(remote, objects);
    UploadStates(schedule, remote, remote, objects, 0);
    var r := UploadFrom(schedule, objects, MatchedKeys(remote, objects), 0, remote);
    var now := Final(PublishRun(schedule, objects, iso, Some(pointer), remote));
    assert now == AfterUpload(Final(r), pointer, schedule(|objects|));
    forall j | 0 <= j < |objects|
      ensures Matches(now, objects[j])
    {
      UploadKeepsOthers(Final(r), pointer, schedule(|objects|), objects[j]);
    }
    var i :| 0 <= i < |objects| && objects[i] == iso;
  }

  /**
   Running a completed publication again uploads no plan object and finds no
   collision; its one effect is to write the pointer again, so the bucket is a
   fixed point as soon as the pointer was stored as sent.
   */
  lemma SecondRunIsFixed(schedule: Schedule, again: Schedule, objects: seq<Item>, iso: Item, pointer: Item,
          remote: Remote)
    requires DistinctKeys(objects) && RealDigests(objects) && iso in objects && pointer.sha != ""
    requires forall i :: 0 <= i < |objects| ==> objects[i].key != pointer.key
    requires PublishRun(schedule, objects, iso, Some(pointer), remote).ending == Published
    ensures var now := Final(PublishRun(schedule, objects, iso, Some(pointer), remote));
            var second := PublishRun(again, objects, iso, Some(pointer), now);
      && second.states == [now, AfterUpload(now, pointer, again(|objects|))]
      && (again(|objects|) == Stores ==>
            second.ending == Published && (Final(second) == now <==> now[pointer.key] == Uploaded(pointer)))
  {
    PublishedIsComplete(schedule, objects, iso, pointer, remote);
    var now := Final(PublishRun(schedule, objects, iso, Some(pointer), remote));
    NoneCollides(now, objects);
    NothingToUpload(again, objects, 0, now);
    PointerStored(schedule, objects, iso, pointer, remote);
    if now[pointer.key] == Uploaded(pointer) {
      assert now[pointer.key := Uploaded(pointer)] == now;
    }
  }

  lemma PointerStored(schedule: Schedule, objects: seq<Item>, iso: Item, pointer: Item, remote: Remote)
    requires PublishRun(schedule, objects, iso, Some(pointer), remote).ending == Published
    ensures pointer.key in Final(PublishRun(schedule, objects, iso, Some(pointer), remote))
  {
  }
}
