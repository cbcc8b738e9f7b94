/** The order in which canonical text puts the keys of an object. */
module KeyOrder {
  import opened Outcomes
  import opened Json
  import opened JsonCanonical

  /** `a` and `b` agree before position `k`, and there `a` ends or holds the lower code point. */
  predicate LowerAt(a: PyString, b: PyString, k: nat) {
    && k <= |a| && k < |b| && a[..k] == b[..k]
    && (k == |a| || a[k] < b[k])
  }

  /** `a` comes before `b`, code point by code point. */
  predicate Lower(a: PyString, b: PyString) {
    exists k :: 0 <= k <= |a| && LowerAt(a, b, k)
  }

  /** The comparison of the sort, and of Python, finds the first difference. */
  lemma {:induction false} BeforeIff(a: PyString, b: PyString)
    ensures Before(a, b) <==> Lower(a, b)
  {
    if |a| == 0 && |b| > 0 {
      assert LowerAt(a, b, 0);
    } else if |a| > 0 && |b| > 0 {
      BeforeIff(a[1..], b[1..]);
      if a[0] < b[0] {
        assert LowerAt(a, b, 0);
      } else if Before(a, b) {
        var k :| 0 <= k <= |a[1..]| && LowerAt(a[1..], b[1..], k);
        LowerBehind(a, b, k);
      }
      if k :| 0 < k <= |a| && LowerAt(a, b, k) {
        assert a[0] == a[..k][0] == b[..k][0] == b[0];
        assert a[1..][..k - 1] == a[..k][1..] == b[1..][..k - 1];
        assert LowerAt(a[1..], b[1..], k - 1);
      }
    }
  }

  lemma LowerBehind(a: PyString, b: PyString, k: nat)
    requires |a| > 0 && |b| > 0 && a[0] == b[0] && LowerAt(a[1..], b[1..], k)
    ensures LowerAt(a, b, k + 1)
  {
    assert a[..k + 1] == [a[0]] + a[1..][..k] && b[..k + 1] == [b[0]] + b[1..][..k];
  }

  /** In every object of the value, each key comes before all later ones. */
  predicate Ascending(v: Value) {
    match v
    case Arr(items) => forall i :: 0 <= i < |items| ==> Ascending(items[i])
    case Obj(fields) =>
      && (forall i, j :: 0 <= i < j < |fields| ==> Lower(fields[i].key, fields[j].key))
      && forall i :: 0 <= i < |fields| ==> Ascending(fields[i].value)
    case _ => true
  }

  lemma {:induction false} SortedAscends(v: Value)
    requires WellFormed(v)
    ensures Ascending(SortedForm(v))
    decreases v
  {
    match v
    case Arr(items) =>
      forall i | 0 <= i < |items|
        ensures Ascending(SortedItems(items)[i])
      {
        SortedAscends(items[i]);
      }
    case Obj(fields) =>
      forall i | 0 <= i < |fields|
        ensures Ascending(SortedFields(fields)[i].value)
      {
        SortedAscends(fields[i].value);
      }
      FieldsAscend(SortedFields(fields));
    case _ =>
  }

  lemma FieldsAscend(fields: seq<Field>)
    requires UniqueKeys(fields) && forall i :: 0 <= i < |fields| ==> Ascending(fields[i].value)
    ensures Ascending(Obj(SortByKey(fields)))
  {
    var sorted := SortByKey(fields);
    SortSorts(fields);
    forall i, j | 0 <= i < j < |sorted|
      ensures Lower(sorted[i].key, sorted[j].key)
    {
      BeforeIff(sorted[i].key, sorted[j].key);
    }
    forall i | 0 <= i < |sorted|
      ensures Ascending(sorted[i].value)
    {
      SortKeepsElements(fields, sorted[i]);
    }
  }

  /** Whatever value is printed, the objects read back from its canonical text have ascending keys. */
  lemma KeysAscend(v: Value)
    requires WellFormed(v) && NoSplitPairs(v)
    ensures Loads(Canonical(v)).Ok? && Ascending(Loads(Canonical(v)).value)
  {
    SortedAscends(v);
    CanonicalRoundTrip(v);
  }
}
