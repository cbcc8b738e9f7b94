/** Publishing again after a run that broke off. */
module Recovery {
  import opened Outcomes
  import opened Publish
  import opened PublishProofs

  ghost predicate AllStore(schedule: Schedule) {
    forall n :: schedule(n) == Stores
  }

  /**
   No object of the plan has to be replaced that may not be, and an image that counts as
   present has the right bytes.
   */
  predicate Ready(objects: seq<Item>, iso: Item, remote: Remote) {
    && (forall i :: 0 <= i < |objects| ==> !Collides(remote, objects[i]))
    && (Matches(remote, iso) ==> remote[iso.key].sha == iso.sha)
  }

  lemma MatchedIff(remote: Remote, objects: seq<Item>, i: nat)
    requires DistinctKeys(objects) && i < |objects|
    ensures objects[i].key in MatchedKeys(remote, objects) <==> Matches(remote, objects[i])
  {
  }

  // ---- when a run completes ---------------------------------------------------------------

  /** With uploads that store, every object that was not matched ends up as uploaded, and nothing else changes. */
  lemma {:induction false} StoredFrom(schedule: Schedule, objects: seq<Item>, matched: set<string>, n: nat,
          now: Remote, i: nat)
    requires AllStore(schedule) && DistinctKeys(objects) && n <= |objects| && i < |objects|
    ensures var r, key := UploadFrom(schedule, objects, matched, n, now), objects[i].key;
      && r.ending == Published
      && if i >= n && key !in matched then key in Final(r) && Final(r)[key] == Uploaded(objects[i])
         else (key in Final(r) <==> key in now) && (key in now ==> Final(r)[key] == now[key])
    decreases |objects| - n
  {
    if n < |objects| {
      var next := if objects[n].key in matched then now else AfterUpload(now, objects[n], schedule(n));
      StoredFrom(schedule, objects, matched, n + 1, next, i);
      assert i != n ==> objects[i].key != objects[n].key;
    }
  }

  /**
   A run whose uploads all store completes exactly when no immutable key of the
   plan holds an object that does not match, and an image that matches by its
   metadata has the right bytes.
   */
  lemma CompletesIff(schedule: Schedule, objects: seq<Item>, iso: Item, pointer: Option<Item>, remote: Remote)
    requires AllStore(schedule) && DistinctKeys(objects) && iso in objects
    ensures PublishRun(schedule, objects, iso, pointer, remote).ending == Published <==> Ready(objects, iso, remote)
  {
    var i :| 0 <= i < |objects| && objects[i] == iso;
    if FirstCollision(remote, objects) == |objects| {
      StoredFrom(schedule, objects, MatchedKeys(remote, objects), 0, remote, i);
      MatchedIff(remote, objects, i);
    } else {
      assert Collides(remote, objects[FirstCollision(remote, objects)]);
    }
  }

  // ---- after a run that broke off ---------------------------------------------------------

  /** Uploads that may fail, before or after taking effect, but store nothing else. */
  ghost predicate NeverMangles(schedule: Schedule) {
    forall n :: !schedule(n).Mangles?
  }

  /** The object is as it was, or was uploaded because it was not there. */
  predicate Kept(start: Remote, now: Remote, item: Item) {
    || ((item.key in now <==> item.key in start) && (item.key in start ==> now[item.key] == start[item.key]))
    || (item.key in now && now[item.key] == Uploaded(item) && !Matches(start, item))
  }

  predicate AllKept(start: Remote, now: Remote, objects: seq<Item>) {
    forall i :: 0 <= i < |objects| ==> Kept(start, now, objects[i])
  }

  lemma UploadKeeps(start: Remote, now: Remote, objects: seq<Item>, n: nat, o: Outcome)
    requires DistinctKeys(objects) && n < |objects| && AllKept(start, now, objects) && !o.Mangles?
    requires !Matches(start, objects[n])
    ensures AllKept(start, AfterUpload(now, objects[n], o), objects)
  {
    var next := AfterUpload(now, objects[n], o);
    forall i | 0 <= i < |objects|
      ensures Kept(start, next, objects[i])
    {
      assert Kept(start, now, objects[i]);
      assert i != n ==> objects[i].key != objects[n].key;
    }
  }

  lemma {:induction false} StatesKept(schedule: Schedule, start: Remote, now: Remote, objects: seq<Item>, n: nat,
          t: nat)
    requires NeverMangles(schedule) && DistinctKeys(objects) && n <= |objects| && AllKept(start, now, objects)
    requires t < |UploadFrom(schedule, objects, MatchedKeys(start, objects), n, now).states|
    ensures AllKept(start, UploadFrom(schedule, objects, MatchedKeys(start, objects), n, now).states[t], objects)
    decreases |objects| - n
  {
    if n < |objects| {
      MatchedIff(start, objects, n);
      if objects[n].key in MatchedKeys(start, objects) {
        StatesKept(schedule, start, now, objects, n + 1, t);
      } else {
        var next := AfterUpload(now, objects[n], schedule(n));
        UploadKeeps(start, now, objects, n, schedule(n));
        var o := schedule(n);
        if t > 0 && !(o.FailsBefore? || o.FailsAfter? || !ReadsBack(next, objects[n])) {
          StatesKept(schedule, start, next, objects, n + 1, t - 1);
        }
      }
    }
  }

  /** The pointer's key is none of the plan's. */
  predicate Apart(objects: seq<Item>, pointer: Option<Item>) {
    pointer.Some? ==> forall i :: 0 <= i < |objects| ==> objects[i].key != pointer.value.key
  }

  lemma RunKept(schedule: Schedule, objects: seq<Item>, iso: Item, pointer: Option<Item>, remote: Remote, t: nat)
    requires NeverMangles(schedule) && DistinctKeys(objects) && Apart(objects, pointer)
    requires t < |PublishRun(schedule, objects, iso, pointer, remote).states|
    ensures AllKept(remote, PublishRun(schedule, objects, iso, pointer, remote).states[t], objects)
  {
    if FirstCollision(remote, objects) == |objects| {
      var uploads := UploadFrom(schedule, objects, MatchedKeys(remote, objects), 0, remote);
      assert AllKept(remote, remote, objects);
      var u := if t < |uploads.states| then t else |uploads.states| - 1;
      StatesKept(schedule, remote, remote, objects, 0, u);
      if t >= |uploads.states| {
        PointerKeeps(remote, Final(uploads), objects, pointer.value, schedule(|objects|));
      }
    }
  }

  lemma PointerKeeps(start: Remote, now: Remote, objects: seq<Item>, pointer: Item, o: Outcome)
    requires AllKept(start, now, objects) && Apart(objects, Some(pointer))
    ensures AllKept(start, AfterUpload(now, pointer, o), objects)
  {
    forall i | 0 <= i < |objects|
      ensures Kept(start, AfterUpload(now, pointer, o), objects[i])
    {
      assert Kept(start, now, objects[i]);
    }
  }

  lemma KeptIsReady(objects: seq<Item>, iso: Item, start: Remote, now: Remote)
    requires AllKept(start, now, objects) && iso in objects
    requires forall i :: 0 <= i < |objects| ==> !Collides(start, objects[i])
    ensures Ready(objects, iso, now) <==> Ready(objects, iso, start)
  {
    forall i | 0 <= i < |objects|
      ensures !Collides(now, objects[i])
    {
      assert Kept(start, now, objects[i]);
    }
    var i :| 0 <= i < |objects| && objects[i] == iso;
    assert Kept(start, now, objects[i]);
  }

  /**
   After a run that broke off anywhere, with uploads that failed but stored
   nothing wrong, a run whose uploads all store completes exactly when it would
   have completed at the start.
   */
  lemma RecoversIff(schedule: Schedule, again: Schedule, objects: seq<Item>, iso: Item, pointer: Option<Item>,
          remote: Remote, t: nat)
    requires NeverMangles(schedule) && AllStore(again) && DistinctKeys(objects) && iso in objects
      && Apart(objects, pointer)
    requires t < |PublishRun(schedule, objects, iso, pointer, remote).states|
    ensures var now := PublishRun(schedule, objects, iso, pointer, remote).states[t];
      PublishRun(again, objects, iso, pointer, now).ending == Published <==> Ready(objects, iso, remote)
  {
    var now := PublishRun(schedule, objects, iso, pointer, remote).states[t];
    CompletesIff(again, objects, iso, pointer, now);
    if FirstCollision(remote, objects) == |objects| {
      RunKept(schedule, objects, iso, pointer, remote, t);
      KeptIsReady(objects, iso, remote, now);
    }
  }

  /**
   An immutable object stored wrongly stops every later run at the comparison, and no run
   changes anything any more.
   */
  lemma WronglyStoredStops(now: Remote, objects: seq<Item>, n: nat, wrong: Stored,
                           schedule: Schedule, iso: Item, pointer: Option<Item>)
    requires n < |objects| && !objects[n].mutable
    requires !Matches(AfterUpload(now, objects[n], Mangles(wrong)), objects[n])
    ensures var after := AfterUpload(now, objects[n], Mangles(wrong));
      && PublishRun(schedule, objects, iso, pointer, after).states == [after]
      && PublishRun(schedule, objects, iso, pointer, after).ending.Collision?
  {
    var after := AfterUpload(now, objects[n], Mangles(wrong));
    assert Collides(after, objects[n]);
    CollisionMeansNoUpload(schedule, objects, iso, pointer, after);
  }
}
