/**
 What the canonical encoding determines: the value, up to the order of
 dictionary keys and up to split surrogate pairs, and nothing else.
 */
module JsonCanonical {
  import opened Outcomes
  import opened Json
  import opened JsonRoundTrip

  lemma PyInjective(a: string, b: string)
    ensures Py(a) == Py(b) <==> a == b
  {
    if Py(a) == Py(b) {
      forall i | 0 <= i < |a|
        ensures a[i] == b[i]
      {
        assert Py(a)[i] == a[i] as int && Py(b)[i] == b[i] as int;
      }
    }
  }

  // ---- the order on keys ---------------------------------------------------------

  lemma {:induction false} BeforeTotal(a: PyString, b: PyString)
    ensures a == b || Before(a, b) || Before(b, a)
    ensures !(Before(a, b) && Before(b, a)) && !Before(a, a)
  {
    if |a| > 0 && |b| > 0 && a[0] == b[0] {
      BeforeTotal(a[1..], b[1..]);
      assert a[1..] == b[1..] ==> a == [a[0]] + a[1..] == [b[0]] + b[1..] == b;
    } else if |a| == 0 && |b| == 0 {
      assert a == b;
    }
    if |a| > 0 {
      BeforeTotal(a[1..], a[1..]);
    }
  }

  lemma {:induction false} BeforeTransitive(a: PyString, b: PyString, c: PyString)
    requires Before(a, b) && Before(b, c)
    ensures Before(a, c)
  {
    if |a| > 0 && a[0] == b[0] && b[0] == c[0] {
      BeforeTransitive(a[1..], b[1..], c[1..]);
    }
  }

  predicate StrictlySorted(fields: seq<Field>) {
    forall i, j :: 0 <= i < j < |fields| ==> Before(fields[i].key, fields[j].key)
  }

  lemma {:induction false} InsertKeepsElements(f: Field, sorted: seq<Field>, x: Field)
    ensures x in InsertField(f, sorted) <==> x == f || x in sorted
    ensures |InsertField(f, sorted)| == |sorted| + 1
  {
    if |sorted| > 0 && !Before(f.key, sorted[0].key) {
      InsertKeepsElements(f, sorted[1..], x);
      assert x in sorted <==> x == sorted[0] || x in sorted[1..];
    }
  }

  lemma {:induction false} InsertStaysSorted(f: Field, sorted: seq<Field>)
    requires StrictlySorted(sorted)
    requires forall x :: x in sorted ==> x.key != f.key
    ensures StrictlySorted(InsertField(f, sorted))
  {
    var r := InsertField(f, sorted);
    if |sorted| == 0 {
    } else if Before(f.key, sorted[0].key) {
      forall j | 0 < j < |r|
        ensures Before(f.key, r[j].key)
      {
        if j > 1 {
          BeforeTransitive(f.key, sorted[0].key, sorted[j - 1].key);
        }
      }
    } else {
      BeforeTotal(f.key, sorted[0].key);
      InsertStaysSorted(f, sorted[1..]);
      forall j | 0 < j < |r|
        ensures Before(sorted[0].key, r[j].key)
      {
        InsertKeepsElements(f, sorted[1..], r[j]);
        assert r[j] == InsertField(f, sorted[1..])[j - 1];
      }
    }
  }

  lemma {:induction false} SortKeepsElements(fields: seq<Field>, x: Field)
    ensures x in SortByKey(fields) <==> x in fields
    ensures |SortByKey(fields)| == |fields|
  {
    if |fields| > 0 {
      SortKeepsElements(fields[1..], x);
      InsertKeepsElements(fields[0], SortByKey(fields[1..]), x);
      assert x in fields <==> x == fields[0] || x in fields[1..];
    }
  }

  lemma {:induction false} SortSorts(fields: seq<Field>)
    requires UniqueKeys(fields)
    ensures StrictlySorted(SortByKey(fields))
  {
    if |fields| > 0 {
      SortSorts(fields[1..]);
      forall x | x in SortByKey(fields[1..])
        ensures x.key != fields[0].key
      {
        SortKeepsElements(fields[1..], x);
      }
      InsertStaysSorted(fields[0], SortByKey(fields[1..]));
    }
  }

  lemma SortedAreUnique(fields: seq<Field>)
    requires StrictlySorted(fields)
    ensures UniqueKeys(fields)
  {
    forall i, j | 0 <= i < j < |fields|
      ensures fields[i].key != fields[j].key
    {
      BeforeTotal(fields[i].key, fields[j].key);
    }
  }

  lemma FirstElement(a: seq<Field>)
    ensures |a| > 0 <==> exists x :: x in a
  {
    assert |a| > 0 ==> a[0] in a;
  }

  /** A strictly sorted list is determined by its elements. */
  lemma {:induction false} SortedDetermined(a: seq<Field>, b: seq<Field>)
    requires StrictlySorted(a) && StrictlySorted(b)
    requires forall x :: x in a <==> x in b
    ensures a == b
  {
    FirstElement(a);
    FirstElement(b);
    if |a| > 0 && |b| > 0 {
      SameLeast(a, b);
      forall x
        ensures x in a[1..] <==> x in b[1..]
      {
        TailElements(a, x);
        TailElements(b, x);
      }
      SortedDetermined(a[1..], b[1..]);
      assert a == [a[0]] + a[1..] && b == [b[0]] + b[1..];
    }
  }

  lemma SameLeast(a: seq<Field>, b: seq<Field>)
    requires StrictlySorted(a) && StrictlySorted(b) && |a| > 0 && |b| > 0
    requires forall x :: x in a <==> x in b
    ensures a[0] == b[0]
  {
    assert a[0] in b && b[0] in a;
    var i :| 0 <= i < |b| && b[i] == a[0];
    var j :| 0 <= j < |a| && a[j] == b[0];
    BeforeTotal(a[0].key, b[0].key);
  }

  lemma TailElements(a: seq<Field>, x: Field)
    requires StrictlySorted(a) && |a| > 0
    ensures x in a[1..] <==> x in a && x != a[0]
  {
    BeforeTotal(a[0].key, a[0].key);
    if x in a && x != a[0] {
      var i :| 0 <= i < |a| && a[i] == x;
      assert a[1..][i - 1] == x;
    }
  }

  // ---- the value a canonical encoding stands for ------------------------------------

  /** Equality of values as dictionaries: the order of keys does not matter. */
  predicate SameValue(a: Value, b: Value) {
    match (a, b)
    case (Arr(x), Arr(y)) => |x| == |y| && forall i :: 0 <= i < |x| ==> SameValue(x[i], y[i])
    case (Obj(f), Obj(g)) =>
      && (forall i :: 0 <= i < |f| ==> Has(g, f[i].key) && SameValue(f[i].value, g[IndexOf(g, f[i].key)].value))
      && (forall j :: 0 <= j < |g| ==> Has(f, g[j].key))
    case (_, _) => a == b
  }

  lemma IndexOfUnique(fields: seq<Field>, i: nat)
    requires UniqueKeys(fields) && i < |fields|
    ensures IndexOf(fields, fields[i].key) == i
  {
  }

  lemma {:induction false} SameValueIffSorted(a: Value, b: Value)
    requires WellFormed(a) && WellFormed(b)
    ensures SameValue(a, b) <==> SortedForm(a) == SortedForm(b)
    decreases a
  {
    match (a, b)
    case (Arr(x), Arr(y)) =>
      if |x| == |y| {
        forall i | 0 <= i < |x|
          ensures SameValue(x[i], y[i]) <==> SortedItems(x)[i] == SortedItems(y)[i]
        {
          SameValueIffSorted(x[i], y[i]);
        }
        assert (forall i :: 0 <= i < |x| ==> SortedItems(x)[i] == SortedItems(y)[i])
            <==> SortedItems(x) == SortedItems(y);
      }
    case (Obj(f), Obj(g)) =>
      forall i, j | 0 <= i < |f| && 0 <= j < |g|
        ensures SameValue(f[i].value, g[j].value) <==> SortedForm(f[i].value) == SortedForm(g[j].value)
      {
        SameValueIffSorted(f[i].value, g[j].value);
      }
      SameFieldsIffSorted(f, g);
    case (_, _) =>
  }

  lemma SameFieldsIffSorted(f: seq<Field>, g: seq<Field>)
    requires UniqueKeys(f) && UniqueKeys(g)
    requires forall i, j :: 0 <= i < |f| && 0 <= j < |g| ==>
      (SameValue(f[i].value, g[j].value) <==> SortedForm(f[i].value) == SortedForm(g[j].value))
    ensures SameValue(Obj(f), Obj(g)) <==> SortByKey(SortedFields(f)) == SortByKey(SortedFields(g))
  {
    var F, G := SortedFields(f), SortedFields(g);
    SortSorts(F);
    SortSorts(G);
    if SameValue(Obj(f), Obj(g)) {
      forall x
        ensures x in SortByKey(F) <==> x in SortByKey(G)
      {
        SortKeepsElements(F, x);
        SortKeepsElements(G, x);
        SameFieldsSameElements(f, g, x);
      }
      SortedDetermined(SortByKey(F), SortByKey(G));
    }
    if SortByKey(F) == SortByKey(G) {
      forall x
        ensures x in F <==> x in G
      {
        SortKeepsElements(F, x);
        SortKeepsElements(G, x);
      }
      SameElementsSameFields(f, g);
    }
  }

  lemma SameFieldsSameElements(f: seq<Field>, g: seq<Field>, x: Field)
    requires UniqueKeys(f) && UniqueKeys(g)
    requires forall i, j :: 0 <= i < |f| && 0 <= j < |g| ==>
      (SameValue(f[i].value, g[j].value) <==> SortedForm(f[i].value) == SortedForm(g[j].value))
    requires SameValue(Obj(f), Obj(g))
    ensures x in SortedFields(f) <==> x in SortedFields(g)
  {
    var F, G := SortedFields(f), SortedFields(g);
    if i :| 0 <= i < |F| && F[i] == x {
      assert G[IndexOf(g, f[i].key)] == x;
    }
    if j :| 0 <= j < |G| && G[j] == x {
      IndexOfUnique(g, j);
      assert F[IndexOf(f, g[j].key)] == x;
    }
  }

  lemma SameElementsSameFields(f: seq<Field>, g: seq<Field>)
    requires UniqueKeys(f) && UniqueKeys(g)
    requires forall i, j :: 0 <= i < |f| && 0 <= j < |g| ==>
      (SameValue(f[i].value, g[j].value) <==> SortedForm(f[i].value) == SortedForm(g[j].value))
    requires forall x :: x in SortedFields(f) <==> x in SortedFields(g)
    ensures SameValue(Obj(f), Obj(g))
  {
    var F, G := SortedFields(f), SortedFields(g);
    forall i | 0 <= i < |f|
      ensures Has(g, f[i].key) && SameValue(f[i].value, g[IndexOf(g, f[i].key)].value)
    {
      assert F[i] in G;
      var j :| 0 <= j < |G| && G[j] == F[i];
      IndexOfUnique(g, j);
    }
    forall j | 0 <= j < |g|
      ensures Has(f, g[j].key)
    {
      assert G[j] in F;
      var i :| 0 <= i < |F| && F[i] == G[j];
      IndexOfUnique(f, i);
    }
  }

  // ---- split surrogate pairs ----------------------------------------------------------

  /** No high surrogate code point is followed by a low one. */
  predicate NoSplit(s: PyString) {
    forall i :: 0 <= i < |s| - 1 ==> !(High(s[i]) && Low(s[i + 1]))
  }

  predicate NoSplitPairs(v: Value) {
    match v
    case Str(s) => NoSplit(s)
    case Arr(items) => forall i :: 0 <= i < |items| ==> NoSplitPairs(items[i])
    case Obj(fields) => forall i :: 0 <= i < |fields| ==> NoSplit(fields[i].key) && NoSplitPairs(fields[i].value)
    case _ => true
  }

  lemma {:induction false} JoinIdentity(s: PyString)
    ensures |Join(s)| <= |s|
    ensures Join(s) == s <==> NoSplit(s)
  {
    if |s| >= 2 && High(s[0]) && Low(s[1]) {
      JoinIdentity(s[2..]);
      assert |Join(s)| < |s|;
    } else if |s| > 0 {
      JoinIdentity(s[1..]);
      assert s == [s[0]] + s[1..];
      if NoSplit(s) {
        forall i | 0 <= i < |s[1..]| - 1
          ensures !(High(s[1..][i]) && Low(s[1..][i + 1]))
        {
          assert s[1..][i] == s[i + 1] && s[1..][i + 1] == s[i + 2];
        }
      }
      if NoSplit(s[1..]) {
        forall i | 0 <= i < |s| - 1
          ensures !(High(s[i]) && Low(s[i + 1]))
        {
          if i > 0 {
            assert s[i] == s[1..][i - 1] && s[i + 1] == s[1..][i];
          }
        }
      }
      assert Join(s)[1..] == Join(s[1..]);
    }
  }

  lemma PutSize(fields: seq<Field>, f: Field)
    ensures |Put(fields, f.key, f.value)| <= |fields| + 1
    ensures |Put(fields, f.key, f.value)| == |fields| + 1 ==> Put(fields, f.key, f.value) == fields + [f]
    ensures (forall i :: 0 <= i < |fields| ==> fields[i].key != f.key) ==> Put(fields, f.key, f.value) == fields + [f]
  {
  }

  lemma SizeStep(pairs: seq<Field>, dict: seq<Field>, put: seq<Field>)
    requires |pairs| > 0 && |dict| <= |pairs| - 1 && (|dict| == |pairs| - 1 ==> dict == pairs[..|pairs| - 1])
    requires |put| <= |dict| + 1 && (|put| == |dict| + 1 ==> put == dict + [pairs[|pairs| - 1]])
    ensures |put| <= |pairs| && (|put| == |pairs| ==> put == pairs)
  {
    assert pairs == pairs[..|pairs| - 1] + [pairs[|pairs| - 1]];
  }

  lemma {:induction false} DictOfSize(pairs: seq<Field>)
    ensures |DictOf(pairs)| <= |pairs|
    ensures |DictOf(pairs)| == |pairs| ==> DictOf(pairs) == pairs
  {
    if |pairs| > 0 {
      DictOfSize(pairs[..|pairs| - 1]);
      PutSize(DictOf(pairs[..|pairs| - 1]), pairs[|pairs| - 1]);
      SizeStep(pairs, DictOf(pairs[..|pairs| - 1]), DictOf(pairs));
    }
  }

  lemma UniqueInit(pairs: seq<Field>)
    requires UniqueKeys(pairs) && |pairs| > 0
    ensures var init, last := pairs[..|pairs| - 1], pairs[|pairs| - 1];
      UniqueKeys(init) && forall i :: 0 <= i < |init| ==> init[i].key != last.key
  {
  }

  lemma {:induction false} DictOfDistinct(pairs: seq<Field>)
    requires UniqueKeys(pairs)
    ensures DictOf(pairs) == pairs
  {
    if |pairs| > 0 {
      var init, last := pairs[..|pairs| - 1], pairs[|pairs| - 1];
      UniqueInit(pairs);
      DictOfDistinct(init);
      PutSize(init, last);
      assert pairs == init + [last];
    }
  }

  /** Printing and reading back changes nothing exactly when there is no split pair. */
  lemma {:induction false} JoinedIdentity(v: Value)
    requires WellFormed(v)
    ensures Joined(v) == v <==> NoSplitPairs(v)
    decreases v
  {
    match v
    case Str(s) => JoinIdentity(s);
    case Arr(items) =>
      forall i | 0 <= i < |items|
        ensures JoinedItems(items)[i] == items[i] <==> NoSplitPairs(items[i])
      {
        JoinedIdentity(items[i]);
      }
      assert (forall i :: 0 <= i < |items| ==> JoinedItems(items)[i] == items[i]) <==> JoinedItems(items) == items;
    case Obj(fields) =>
      var J := JoinedFields(fields);
      forall i | 0 <= i < |fields|
        ensures J[i] == fields[i] <==> NoSplit(fields[i].key) && NoSplitPairs(fields[i].value)
      {
        JoinIdentity(fields[i].key);
        JoinedIdentity(fields[i].value);
      }
      assert (forall i :: 0 <= i < |fields| ==> J[i] == fields[i]) <==> J == fields;
      DictOfSize(J);
      DictOfDistinct(fields);
    case _ =>
  }

  lemma {:induction false} SortedFormKeeps(v: Value)
    requires WellFormed(v)
    ensures WellFormed(SortedForm(v))
    ensures NoSplitPairs(SortedForm(v)) <==> NoSplitPairs(v)
    decreases v
  {
    match v
    case Arr(items) =>
      forall i | 0 <= i < |items|
        ensures WellFormed(SortedItems(items)[i])
        ensures NoSplitPairs(SortedItems(items)[i]) <==> NoSplitPairs(items[i])
      {
        SortedFormKeeps(items[i]);
      }
    case Obj(fields) =>
      forall i | 0 <= i < |fields|
        ensures WellFormed(SortedFields(fields)[i].value)
        ensures NoSplitPairs(SortedFields(fields)[i].value) <==> NoSplitPairs(fields[i].value)
      {
        SortedFormKeeps(fields[i].value);
      }
      SortedObjectKeeps(SortedFields(fields));
    case _ =>
  }

  /** Two lists of the same fields, with distinct keys. */
  lemma SameFieldsKeep(a: seq<Field>, b: seq<Field>)
    requires UniqueKeys(a) && WellFormed(Obj(b))
    requires forall i :: 0 <= i < |a| ==> a[i] in b
    requires forall i :: 0 <= i < |b| ==> b[i] in a
    ensures WellFormed(Obj(a)) && (NoSplitPairs(Obj(a)) <==> NoSplitPairs(Obj(b)))
  {
  }

  lemma SortedObjectKeeps(fields: seq<Field>)
    requires WellFormed(Obj(fields))
    ensures WellFormed(Obj(SortByKey(fields)))
    ensures NoSplitPairs(Obj(SortByKey(fields))) <==> NoSplitPairs(Obj(fields))
  {
    var S := SortByKey(fields);
    SortSorts(fields);
    SortedAreUnique(S);
    forall i | 0 <= i < |S|
      ensures S[i] in fields
    {
      SortKeepsElements(fields, S[i]);
    }
    forall i | 0 <= i < |fields|
      ensures fields[i] in S
    {
      SortKeepsElements(fields, fields[i]);
    }
    SameFieldsKeep(S, fields);
  }

  // ---- main results ---------------------------------------------------------------------

  /** `json.loads(canonical(v))` is the sorted value exactly when no string in it holds a split pair. */
  lemma CanonicalRoundTrip(v: Value)
    requires WellFormed(v)
    ensures Loads(Canonical(v)) == Ok(SortedForm(v)) <==> NoSplitPairs(v)
  {
    LoadsOfRender(SortedForm(v));
    SortedFormKeeps(v);
    JoinedIdentity(SortedForm(v));
  }

  /** Key order never reaches the bytes, and different values never share them. */
  lemma CanonicalIffSameValue(a: Value, b: Value)
    requires WellFormed(a) && WellFormed(b)
    requires NoSplitPairs(a) && NoSplitPairs(b)
    ensures Canonical(a) == Canonical(b) <==> SameValue(a, b)
  {
    CanonicalRoundTrip(a);
    CanonicalRoundTrip(b);
    SameValueIffSorted(a, b);
  }

  lemma EscapeCombined(high: CodePoint, low: CodePoint)
    requires High(high) && Low(low)
    ensures EscapeOne(Combine(high, low)) == EscapeOne(high) + EscapeOne(low)
  {
    var c := Combine(high, low);
    assert HighHalf(c) == high && LowHalf(c) == low;
    assert EscapeOne(high) == UnicodeEscape(high) && EscapeOne(low) == UnicodeEscape(low);
  }

  lemma {:induction false} EscapeJoin(s: PyString)
    ensures Escape(Join(s)) == Escape(s)
    decreases |s|
  {
    if |s| >= 2 && High(s[0]) && Low(s[1]) {
      EscapeJoin(s[2..]);
      EscapeCombined(s[0], s[1]);
      assert s[1..][1..] == s[2..];
      assert Join(s)[1..] == Join(s[2..]);
      assert Escape(s) == EscapeOne(s[0]) + (EscapeOne(s[1]) + Escape(s[2..]));
    } else if |s| > 0 {
      EscapeJoin(s[1..]);
      assert Join(s)[1..] == Join(s[1..]);
    }
  }

  /** The exception is a whole family: a string with a split pair and its joined form share their bytes. */
  lemma SplitPairsCollide(s: PyString)
    requires !NoSplit(s)
    ensures !SameValue(Str(s), Str(Join(s)))
    ensures Canonical(Str(s)) == Canonical(Str(Join(s)))
  {
    JoinIdentity(s);
    EscapeJoin(s);
  }

  /** Two strings share their canonical bytes exactly when joining their split pairs makes them equal. */
  lemma StringsShareBytesIff(a: PyString, b: PyString)
    ensures Canonical(Str(a)) == Canonical(Str(b)) <==> Join(a) == Join(b)
  {
    LoadsOfRender(Str(a));
    LoadsOfRender(Str(b));
    EscapeJoin(a);
    EscapeJoin(b);
  }
}
