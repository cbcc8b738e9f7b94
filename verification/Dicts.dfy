/** Dictionary facts the chain proofs use: lookup, update, removal and sorting by their elements. */
module Dicts {
  import opened Outcomes
  import opened Json
  import opened JsonCanonical
  import opened JsonParsed

  lemma GetElement(fields: seq<Field>, x: Field)
    requires UniqueKeys(fields) && x in fields
    ensures Get(fields, x.key) == Some(x.value)
  {
    var i :| 0 <= i < |fields| && fields[i] == x;
    IndexOfUnique(fields, i);
  }

  lemma HasIffElement(fields: seq<Field>, key: PyString)
    ensures Has(fields, key) <==> exists x :: x in fields && x.key == key
    ensures Has(fields, key) ==> Field(key, Get(fields, key).value) in fields
  {
    if Has(fields, key) {
      assert fields[IndexOf(fields, key)] in fields;
    }
  }

  lemma {:induction false} WithoutElements(fields: seq<Field>, key: PyString, x: Field)
    ensures x in Without(fields, key) <==> x in fields && x.key != key
  {
    if |fields| > 0 {
      WithoutElements(fields[1..], key, x);
      assert x in fields <==> x == fields[0] || x in fields[1..];
    }
  }

  lemma {:induction false} WithoutUnique(fields: seq<Field>, key: PyString)
    requires UniqueKeys(fields)
    ensures UniqueKeys(Without(fields, key))
  {
    if |fields| > 0 {
      WithoutUnique(fields[1..], key);
      forall x | x in Without(fields[1..], key)
        ensures x.key != fields[0].key
      {
        WithoutElements(fields[1..], key, x);
      }
    }
  }

  lemma {:induction false} WithoutAbsent(fields: seq<Field>, key: PyString)
    requires !Has(fields, key)
    ensures Without(fields, key) == fields
  {
    if |fields| > 0 {
      WithoutAbsent(fields[1..], key);
    }
  }

  lemma GetWithout(fields: seq<Field>, key: PyString, other: PyString)
    requires UniqueKeys(fields)
    ensures Get(Without(fields, key), other) == if other == key then None else Get(fields, other)
  {
    var rest := Without(fields, key);
    HasIffElement(rest, other);
    HasIffElement(fields, other);
    WithoutUnique(fields, key);
    if Has(rest, other) {
      var x := Field(other, Get(rest, other).value);
      WithoutElements(fields, key, x);
      GetElement(fields, x);
    } else if Has(fields, other) {
      WithoutElements(fields, key, Field(other, Get(fields, other).value));
    }
  }

  lemma GetPut(fields: seq<Field>, key: PyString, value: Value, other: PyString)
    requires UniqueKeys(fields)
    ensures Get(Put(fields, key, value), other) == if other == key then Some(value) else Get(fields, other)
  {
    var put := Put(fields, key, value);
    PutKeepsUnique(fields, key, value);
    HasIffElement(put, other);
    HasIffElement(fields, other);
    PutElements(fields, key, value, Field(key, value));
    if other == key {
      GetElement(put, Field(key, value));
    } else if Has(put, other) {
      PutElements(fields, key, value, Field(other, Get(put, other).value));
      GetElement(fields, Field(other, Get(put, other).value));
    } else if Has(fields, other) {
      PutElements(fields, key, value, Field(other, Get(fields, other).value));
    }
  }

  lemma PutElements(fields: seq<Field>, key: PyString, value: Value, x: Field)
    requires UniqueKeys(fields)
    ensures x in Put(fields, key, value) <==> (if x.key == key then x.value == value else x in fields)
  {
    var i, put := IndexOf(fields, key), Put(fields, key, value);
    if i < |fields| {
      assert put[i] == Field(key, value);
      if x in fields && x.key != key {
        var j :| 0 <= j < |fields| && fields[j] == x;
        assert put[j] == x;
      }
      if x in put && x.key != key {
        var j :| 0 <= j < |put| && put[j] == x;
        assert fields[j] == x;
      }
    } else {
      assert put[|fields|] == Field(key, value);
    }
  }

  lemma WithoutPut(fields: seq<Field>, key: PyString, value: Value)
    requires UniqueKeys(fields)
    ensures Without(Put(fields, key, value), key) == Without(fields, key)
  {
    if Has(fields, key) {
      WithoutReplace(fields, IndexOf(fields, key), value);
    } else {
      WithoutAppend(fields, Field(key, value));
      WithoutAbsent(fields, key);
    }
  }

  lemma {:induction false} WithoutReplace(fields: seq<Field>, i: nat, value: Value)
    requires i < |fields|
    ensures Without(fields[i := Field(fields[i].key, value)], fields[i].key) == Without(fields, fields[i].key)
  {
    var put := fields[i := Field(fields[i].key, value)];
    if i > 0 {
      assert put[1..] == fields[1..][i - 1 := Field(fields[i].key, value)];
      WithoutReplace(fields[1..], i - 1, value);
    } else {
      assert put[1..] == fields[1..];
    }
  }

  lemma {:induction false} WithoutAppend(fields: seq<Field>, x: Field)
    ensures Without(fields + [x], x.key) == Without(fields, x.key)
  {
    if |fields| == 0 {
      assert (fields + [x])[1..] == [];
    } else {
      assert (fields + [x])[1..] == fields[1..] + [x];
      WithoutAppend(fields[1..], x);
    }
  }

  // ---- sorted dictionaries ---------------------------------------------------------

  lemma SortedFieldsElements(fields: seq<Field>, x: Field)
    ensures x in SortedFields(fields) <==> exists y :: y in fields && x == Field(y.key, SortedForm(y.value))
  {
    if x in SortedFields(fields) {
      var i :| 0 <= i < |fields| && SortedFields(fields)[i] == x;
      assert fields[i] in fields;
    }
    if y :| y in fields && x == Field(y.key, SortedForm(y.value)) {
      var i :| 0 <= i < |fields| && fields[i] == y;
      assert SortedFields(fields)[i] == x;
    }
  }

  lemma SortOfSorted(fields: seq<Field>)
    requires StrictlySorted(fields)
    ensures SortByKey(fields) == fields
  {
    SortedAreUnique(fields);
    SortSorts(fields);
    forall x
      ensures x in SortByKey(fields) <==> x in fields
    {
      SortKeepsElements(fields, x);
    }
    SortedDetermined(SortByKey(fields), fields);
  }

  lemma {:induction false} SortedFormIdempotent(v: Value)
    requires WellFormed(v)
    ensures SortedForm(SortedForm(v)) == SortedForm(v)
    decreases v
  {
    match v
    case Arr(items) =>
      var s := SortedItems(items);
      forall i | 0 <= i < |items|
        ensures SortedForm(s[i]) == s[i]
      {
        SortedFormIdempotent(items[i]);
      }
      assert SortedItems(s) == s;
    case Obj(fields) =>
      var F := SortByKey(SortedFields(fields));
      SortSorts(SortedFields(fields));
      forall i | 0 <= i < |F|
        ensures SortedForm(F[i].value) == F[i].value
      {
        SortKeepsElements(SortedFields(fields), F[i]);
        SortedFieldsElements(fields, F[i]);
        var y :| y in fields && F[i] == Field(y.key, SortedForm(y.value));
        SortedFormIdempotent(y.value);
      }
      assert SortedFields(F) == F;
      SortOfSorted(F);
    case _ =>
  }

  /** A value and its sorted form are the same value. */
  lemma SortedFormSame(v: Value)
    requires WellFormed(v)
    ensures WellFormed(SortedForm(v)) && SameValue(SortedForm(v), v)
    ensures NoSplitPairs(v) ==> NoSplitPairs(SortedForm(v))
  {
    SortedFormKeeps(v);
    SortedFormIdempotent(v);
    SameValueIffSorted(SortedForm(v), v);
  }

  /** Equal dictionaries agree on every key. */
  lemma SameGet(f: seq<Field>, g: seq<Field>, key: PyString)
    requires UniqueKeys(f) && UniqueKeys(g) && SameValue(Obj(f), Obj(g))
    ensures Get(f, key).Some? <==> Get(g, key).Some?
    ensures Get(f, key).Some? ==> SameValue(Get(f, key).value, Get(g, key).value)
  {
    if Has(f, key) {
      assert f[IndexOf(f, key)].key == key;
    }
    if Has(g, key) {
      assert g[IndexOf(g, key)].key == key;
    }
  }

  /** Dictionaries that agree on every key are equal. */
  lemma SameByGet(f: seq<Field>, g: seq<Field>)
    requires UniqueKeys(f) && UniqueKeys(g)
    requires forall k :: Get(f, k).Some? <==> Get(g, k).Some?
    requires forall k :: Get(f, k).Some? ==> SameValue(Get(f, k).value, Get(g, k).value)
    ensures SameValue(Obj(f), Obj(g))
  {
    forall i | 0 <= i < |f|
      ensures Has(g, f[i].key) && SameValue(f[i].value, g[IndexOf(g, f[i].key)].value)
    {
      IndexOfUnique(f, i);
      assert Get(f, f[i].key).Some?;
    }
    forall j | 0 <= j < |g|
      ensures Has(f, g[j].key)
    {
      IndexOfUnique(g, j);
      assert Get(g, g[j].key).Some?;
    }
  }

  /** Removing a key from equal dictionaries leaves equal dictionaries. */
  lemma SameWithout(f: seq<Field>, g: seq<Field>, key: PyString)
    requires UniqueKeys(f) && UniqueKeys(g) && SameValue(Obj(f), Obj(g))
    ensures SameValue(Obj(Without(f, key)), Obj(Without(g, key)))
  {
    WithoutUnique(f, key);
    WithoutUnique(g, key);
    forall k
      ensures Get(Without(f, key), k).Some? <==> Get(Without(g, key), k).Some?
      ensures Get(Without(f, key), k).Some? ==>
        SameValue(Get(Without(f, key), k).value, Get(Without(g, key), k).value)
    {
      GetWithout(f, key, k);
      GetWithout(g, key, k);
      SameGet(f, g, k);
    }
    SameByGet(Without(f, key), Without(g, key));
  }

  // ---- plain dictionaries ------------------------------------------------------------

  lemma PlainElements(fields: seq<Field>)
    ensures Plain(Obj(fields)) <==>
      UniqueKeys(fields) && forall x :: x in fields ==> NoSplit(x.key) && Plain(x.value)
  {
    assert forall i :: 0 <= i < |fields| ==> fields[i] in fields;
  }

  lemma PutPlain(fields: seq<Field>, key: PyString, value: Value)
    requires Plain(Obj(fields)) && NoSplit(key) && Plain(value)
    ensures Plain(Obj(Put(fields, key, value)))
  {
    PutKeepsUnique(fields, key, value);
    PlainElements(fields);
    forall x | x in Put(fields, key, value)
      ensures NoSplit(x.key) && Plain(x.value)
    {
      PutElements(fields, key, value, x);
    }
    PlainElements(Put(fields, key, value));
  }

  lemma WithoutPlain(fields: seq<Field>, key: PyString)
    requires Plain(Obj(fields))
    ensures Plain(Obj(Without(fields, key)))
  {
    WithoutUnique(fields, key);
    PlainElements(fields);
    forall x | x in Without(fields, key)
      ensures NoSplit(x.key) && Plain(x.value)
    {
      WithoutElements(fields, key, x);
    }
    PlainElements(Without(fields, key));
  }

  /** ASCII text converted to a Python string holds no surrogates at all. */
  lemma PyPlain(s: string)
    ensures NoSplit(Py(s))
  {
  }
}
