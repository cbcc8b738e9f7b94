/** The publication order by the keys themselves, and what it means while a run is under way. */
module PlanOrder {
  import opened Outcomes
  import opened Json
  import opened KeyOrder
  import opened JsonCanonical
  import opened Publish
  import opened PublishProofs

  /** A file of the metadata that is none of the three release files: an index. */
  predicate IsIndex(key: string) {
    key !in {"apt/dists/umbra/Release.gpg", "apt/dists/umbra/Release", "apt/dists/umbra/InRelease"}
  }

  /** What may stand before what: indices ascending, then Release.gpg, then Release, then InRelease. */
  predicate MayPrecede(first: string, second: string) {
    || (IsIndex(first) && IsIndex(second) && Lower(Py(first), Py(second)))
    || (IsIndex(first) && !IsIndex(second))
    || (first == "apt/dists/umbra/Release.gpg" && second == "apt/dists/umbra/Release")
    || (first in {"apt/dists/umbra/Release.gpg", "apt/dists/umbra/Release"} && second == "apt/dists/umbra/InRelease")
  }

  predicate InPublicationOrder(items: seq<Item>) {
    forall i, j :: 0 <= i < j < |items| ==> MayPrecede(items[i].key, items[j].key)
  }

  lemma OneOrder(a: Item, b: Item)
    requires a.key != b.key
    ensures OrderedBefore(a, b) <==> MayPrecede(a.key, b.key)
    ensures OrderedBefore(a, b) || OrderedBefore(b, a)
  {
    BeforeIff(Py(a.key), Py(b.key));
    BeforeTotal(Py(a.key), Py(b.key));
    PyInjective(a.key, b.key);
  }

  lemma OrderedByKeys(items: seq<Item>)
    requires InOrder(items) && DistinctKeys(items)
    ensures InPublicationOrder(items)
  {
    forall i, j | 0 <= i < j < |items|
      ensures MayPrecede(items[i].key, items[j].key)
    {
      OneOrder(items[i], items[j]);
      assert !OrderedBefore(items[j], items[i]);
    }
  }

  /** An accepted plan is the image, the fixed files, the pool, and then the metadata in publication order. */
  lemma PlanIsOrdered(accepted: Accepted, iso: Item, fixed: seq<Item>, bundle: nat, pool: seq<Item>,
          metadata: seq<Item>)
    requires bundle < |fixed| && PlanOf(accepted, iso, fixed, bundle, pool, metadata).Ok?
    ensures var plan, front := PlanOf(accepted, iso, fixed, bundle, pool, metadata).value, [iso] + fixed + pool;
      && front <= plan && multiset(plan[|front|..]) == multiset(metadata)
      && InPublicationOrder(plan[|front|..])
  {
    var plan, front := PlanOf(accepted, iso, fixed, bundle, pool, metadata).value, [iso] + fixed + pool;
    var tail := plan[|front|..];
    SortItemsSorts(metadata);
    assert tail == SortItems(metadata);
    assert forall i :: 0 <= i < |tail| ==> tail[i] == plan[|front| + i];
    OrderedByKeys(tail);
  }

  /** Where an item of the metadata stands in the plan. */
  lemma MetadataAt(plan: seq<Item>, front: nat, metadata: seq<Item>, x: Item) returns (i: nat)
    requires front <= |plan| && multiset(plan[front..]) == multiset(metadata) && x in metadata
    ensures front <= i < |plan| && plan[i] == x
  {
    SameMembers(plan[front..], metadata);
    var j :| 0 <= j < |plan[front..]| && plan[front..][j] == x;
    i := front + j;
  }

  lemma StandsBefore(items: seq<Item>, i: nat, n: nat)
    requires InPublicationOrder(items) && i < |items| && n < |items|
    requires !IsIndex(items[n].key) && MayPrecede(items[i].key, items[n].key)
    ensures i < n
  {
  }

  /** Where two items of the metadata stand, one of which belongs before the other, a release file. */
  lemma Places(accepted: Accepted, iso: Item, fixed: seq<Item>, bundle: nat, pool: seq<Item>, metadata: seq<Item>,
          plan: seq<Item>, release: Item, x: Item)
    returns (i: nat, n: nat)
    requires bundle < |fixed| && PlanOf(accepted, iso, fixed, bundle, pool, metadata) == Ok(plan)
    requires release in metadata && x in metadata && !IsIndex(release.key) && MayPrecede(x.key, release.key)
    ensures i < n < |plan| && plan[i] == x && plan[n] == release && DistinctKeys(plan)
  {
    PlanIsOrdered(accepted, iso, fixed, bundle, pool, metadata);
    var front := |[iso] + fixed + pool|;
    i := MetadataAt(plan, front, metadata, x);
    n := MetadataAt(plan, front, metadata, release);
    StandsBefore(plan[front..], i - front, n - front);
  }

  /**
   With any plan the publisher builds, in any state of any run in which a release
   file of the metadata has changed, everything of the metadata that belongs
   before it is present: every index, and the release files before it.
   */
  lemma IndicesComeFirst(accepted: Accepted, iso: Item, fixed: seq<Item>, bundle: nat, pool: seq<Item>,
          metadata: seq<Item>, plan: seq<Item>, schedule: Schedule, pointer: Option<Item>, remote: Remote, t: nat,
          release: Item, x: Item)
    requires bundle < |fixed| && PlanOf(accepted, iso, fixed, bundle, pool, metadata) == Ok(plan)
    requires RealDigests(plan) && (pointer.Some? ==> forall i :: 0 <= i < |plan| ==> plan[i].key != pointer.value.key)
    requires t < |PublishRun(schedule, plan, iso, pointer, remote).states|
    requires release in metadata && !IsIndex(release.key)
    requires Changed(remote, PublishRun(schedule, plan, iso, pointer, remote).states[t], release.key)
    requires x in metadata && MayPrecede(x.key, release.key)
    ensures Matches(PublishRun(schedule, plan, iso, pointer, remote).states[t], x)
  {
    var i, n := Places(accepted, iso, fixed, bundle, pool, metadata, plan, release, x);
    UploadsAreInOrder(schedule, plan, iso, pointer, remote, t, n);
  }

  // ---- which plans are accepted ------------------------------------------------------------

  /** An item that a sequence holds twice stands in two places. */
  lemma {:induction false} TwoPlaces(items: seq<Item>, x: Item) returns (i: nat, j: nat)
    requires multiset(items)[x] >= 2
    ensures i < j < |items| && items[i] == items[j] == x
  {
    var n := |items| - 1;
    assert items == items[..n] + [items[n]];
    if items[n] == x {
      assert multiset(items[..n])[x] > 0;
      i :| 0 <= i < n && items[..n][i] == x;
      j := n;
    } else {
      i, j := TwoPlaces(items[..n], x);
    }
  }

  lemma KeysStayDistinct(a: seq<Item>, b: seq<Item>)
    requires multiset(a) == multiset(b) && DistinctKeys(a)
    ensures DistinctKeys(b)
  {
    forall i, j | 0 <= i < j < |b|
      ensures b[i].key != b[j].key
    {
      SameMembers(a, b);
      assert b[i] in b && b[j] in b;
      var p :| 0 <= p < |a| && a[p] == b[i];
      var q :| 0 <= q < |a| && a[q] == b[j];
      if p == q {
        assert b == b[..j] + [b[j]] + b[j + 1..];
        assert b[..j][i] == b[i] && multiset(b[..j])[b[i]] > 0;
        assert multiset(b)[b[i]] >= 2;
        var s, t := TwoPlaces(a, b[i]);
      }
    }
  }

  /**
   A plan is accepted exactly when the image and the evidence bundle are the
   accepted ones, the pool is not empty, the metadata has the signed index, and no
   key is used twice.
   */
  lemma AcceptedIff(accepted: Accepted, iso: Item, fixed: seq<Item>, bundle: nat, pool: seq<Item>, metadata: seq<Item>)
    requires bundle < |fixed|
    ensures PlanOf(accepted, iso, fixed, bundle, pool, metadata).Ok? <==>
      && iso.sha == accepted.isoSha && iso.size == accepted.isoSize && fixed[bundle].sha == accepted.bundleSha
      && pool != [] && (exists x :: x in metadata && x.key == "apt/dists/umbra/InRelease")
      && DistinctKeys([iso] + fixed + pool + metadata)
  {
    InReleaseLast(metadata);
    SortItemsSorts(metadata);
    var front, sorted := [iso] + fixed + pool, SortItems(metadata);
    assert multiset(front + metadata) == multiset(front + sorted);
    if DistinctKeys(front + metadata) {
      KeysStayDistinct(front + metadata, front + sorted);
    }
    if DistinctKeys(front + sorted) {
      KeysStayDistinct(front + sorted, front + metadata);
    }
  }
}
