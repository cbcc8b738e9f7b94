/**
 What the hash chain enforces.  No digest is assumed to be collision free in
 general; each result names the finite condition on the rows at hand it needs.
 */
module Chain {
  import opened Outcomes
  import opened Json
  import opened JsonCanonical
  import opened JsonParsed
  import opened Dicts
  import opened Ledgers
  import opened LedgerFile

  // ---- clean chains, row by row ------------------------------------------------------

  /** What the next row's `prev` must be. */
  function Link(rows: seq<Value>): Value {
    if |rows| > 0 && rows[|rows| - 1].Obj? then LinkAfter(rows[|rows| - 1].fields) else Str(GENESIS)
  }

  /** The row at `i` carries its own digest and the digest of the row before it. */
  predicate RowChains(h: Hash, rows: seq<Value>, i: nat)
    requires i < |rows|
  {
    rows[i].Obj? && DigestMatches(h, rows[i].fields) && LinksTo(rows[i].fields, Link(rows[..i]))
  }

  lemma RowProblemsEmpty(h: Hash, row: seq<Field>, previous: Value)
    ensures RowProblems(h, row, previous) == [] <==> DigestMatches(h, row) && LinksTo(row, previous)
  {
  }

  lemma PrefixedEmpty(problems: seq<Problem>, r: Result<seq<Problem>>)
    ensures Prefixed(problems, r) == Ok([]) <==> problems == [] && r == Ok([])
  {
    if r.Ok? {
      assert |problems + r.value| == |problems| + |r.value|;
    }
  }

  lemma {:induction false} ProblemsSnoc(h: Hash, rows: seq<Value>, row: Value, previous: Value)
    requires forall i :: 0 <= i < |rows| ==> rows[i].Obj?
    ensures var last := if |rows| == 0 then previous else Link(rows);
      ProblemsFrom(h, rows + [row], previous) == Ok([])
      <==>
        ProblemsFrom(h, rows, previous) == Ok([])
        && row.Obj? && DigestMatches(h, row.fields) && LinksTo(row.fields, last)
  {
    var all := rows + [row];
    if |rows| == 0 {
      assert all[0] == row && all[1..] == [];
      if row.Obj? {
        RowProblemsEmpty(h, row.fields, previous);
      }
    } else {
      var first := rows[0].fields;
      assert all[0] == rows[0] && all[1..] == rows[1..] + [row];
      ProblemsSnoc(h, rows[1..], row, LinkAfter(first));
      PrefixedEmpty(RowProblems(h, first, previous), ProblemsFrom(h, all[1..], LinkAfter(first)));
      PrefixedEmpty(RowProblems(h, first, previous), ProblemsFrom(h, rows[1..], LinkAfter(first)));
    }
  }

  lemma {:induction false} ProblemsOfNonObject(h: Hash, rows: seq<Value>, i: nat, previous: Value)
    requires i < |rows| && !rows[i].Obj?
    ensures ProblemsFrom(h, rows, previous).Err?
  {
    if i > 0 && rows[0].Obj? {
      ProblemsOfNonObject(h, rows[1..], i - 1, LinkAfter(rows[0].fields));
    }
  }

  /** A chain with one more row is clean exactly when the chain was and the row chains. */
  lemma CleanSnoc(h: Hash, rows: seq<Value>, row: Value)
    ensures Clean(h, rows + [row]) <==> Clean(h, rows) && RowChains(h, rows + [row], |rows|)
  {
    var all := rows + [row];
    assert all[..|rows|] == rows && all[|rows|] == row;
    if i :| 0 <= i < |rows| && !rows[i].Obj? {
      ProblemsOfNonObject(h, rows, i, Str(GENESIS));
      ProblemsOfNonObject(h, all, i, Str(GENESIS));
    } else {
      ProblemsSnoc(h, rows, row, Str(GENESIS));
    }
  }

  lemma ChainsInPrefix(h: Hash, rows: seq<Value>, n: nat)
    requires n <= |rows|
    ensures (forall i :: 0 <= i < n ==> RowChains(h, rows[..n], i))
      <==> (forall i :: 0 <= i < n ==> RowChains(h, rows, i))
  {
    forall i | 0 <= i < n
      ensures RowChains(h, rows[..n], i) <==> RowChains(h, rows, i)
    {
      assert rows[..n][..i] == rows[..i];
    }
  }

  /** `verify()` reports nothing exactly when every row chains. */
  lemma {:induction false} CleanIff(h: Hash, rows: seq<Value>)
    ensures Clean(h, rows) <==> forall i :: 0 <= i < |rows| ==> RowChains(h, rows, i)
  {
    if |rows| > 0 {
      var n := |rows| - 1;
      assert rows == rows[..n] + [rows[n]];
      CleanSnoc(h, rows[..n], rows[n]);
      CleanIff(h, rows[..n]);
      ChainsInPrefix(h, rows, n);
      assert RowChains(h, rows, n) <==>
        rows[n].Obj? && DigestMatches(h, rows[n].fields) && LinksTo(rows[n].fields, Link(rows[..n]));
    }
  }

  /** Truncation is invisible: every prefix of a clean chain is clean. */
  lemma CleanPrefix(h: Hash, rows: seq<Value>, n: nat)
    requires Clean(h, rows) && n <= |rows|
    ensures Clean(h, rows[..n])
  {
    CleanIff(h, rows);
    CleanIff(h, rows[..n]);
    forall i | 0 <= i < n
      ensures RowChains(h, rows[..n], i)
    {
      assert RowChains(h, rows, i);
      assert rows[..n][..i] == rows[..i];
    }
  }

  /** A clean row's link is the digest of its body. */
  lemma LinkIsDigest(h: Hash, rows: seq<Value>)
    requires Clean(h, rows) && |rows| > 0
    ensures rows[|rows| - 1].Obj?
    ensures Link(rows) == DigestOf(h, Obj(Body(rows[|rows| - 1].fields)))
    ensures HeadOf(rows) == Ok(Link(rows))
  {
    CleanIff(h, rows);
    assert RowChains(h, rows, |rows| - 1);
  }

  lemma HeadIsLink(h: Hash, rows: seq<Value>)
    requires Clean(h, rows)
    ensures HeadOf(rows) == Ok(Link(rows)) && Link(rows).Str?
  {
    if |rows| > 0 {
      LinkIsDigest(h, rows);
    }
  }

  // ---- the head fixes the history ------------------------------------------------------

  function BodyText(row: Value): string {
    if row.Obj? then Canonical(Obj(Body(row.fields))) else ""
  }

  /** The digest tells the two rows' bodies apart, when they differ. */
  predicate Tells(h: Hash, x: Value, y: Value) {
    h(BodyText(x)) == h(BodyText(y)) ==> BodyText(x) == BodyText(y)
  }

  predicate NotGenesis(h: Hash, x: Value) {
    h(BodyText(x)) != GENESIS
  }

  /** No row of one list and row of the other have different bodies with one digest, and none digests to GENESIS. */
  predicate NoBreachAcross(h: Hash, a: seq<Value>, b: seq<Value>) {
    && (forall i {:trigger NotGenesis(h, a[i])} :: 0 <= i < |a| ==> NotGenesis(h, a[i]))
    && (forall j {:trigger NotGenesis(h, b[j])} :: 0 <= j < |b| ==> NotGenesis(h, b[j]))
    && (forall i, j {:trigger Tells(h, a[i], b[j])} :: 0 <= i < |a| && 0 <= j < |b| ==> Tells(h, a[i], b[j]))
  }

  /** The same within one list. */
  predicate NoBreach(h: Hash, rows: seq<Value>) {
    NoBreachAcross(h, rows, rows)
  }

  lemma KeysDiffer()
    ensures SEQ != PREV && SEQ != APPENDED && SEQ != ENTRY_SHA
    ensures PREV != APPENDED && PREV != ENTRY_SHA && APPENDED != ENTRY_SHA
    ensures NoSplit(SEQ) && NoSplit(PREV) && NoSplit(APPENDED) && NoSplit(ENTRY_SHA) && NoSplit(GENESIS)
  {
    assert APPENDED[0] == 'a' as int && ENTRY_SHA[0] == 'e' as int;
    assert SEQ[0] == 's' as int && PREV[0] == 'p' as int;
    PyPlain("seq");
    PyPlain("prev");
    PyPlain("appended_utc");
    PyPlain("entry_sha256");
  }

  predicate AllPlain(rows: seq<Value>) {
    forall i {:trigger Plain(rows[i])} :: 0 <= i < |rows| ==> Plain(rows[i])
  }

  /** Rows with one body text are the same row and name the same predecessor. */
  lemma SameBodySameRow(h: Hash, a: seq<Field>, b: seq<Field>)
    requires Plain(Obj(a)) && Plain(Obj(b))
    requires BodyText(Obj(a)) == BodyText(Obj(b))
    requires DigestMatches(h, a) && DigestMatches(h, b)
    ensures SameValue(Obj(a), Obj(b))
    ensures Get(a, PREV).Some? <==> Get(b, PREV).Some?
    ensures Get(a, PREV).Some? ==> SameValue(Get(a, PREV).value, Get(b, PREV).value)
  {
    KeysDiffer();
    WithoutPlain(a, ENTRY_SHA);
    WithoutPlain(b, ENTRY_SHA);
    CanonicalIffSameValue(Obj(Body(a)), Obj(Body(b)));
    forall k
      ensures Get(a, k).Some? <==> Get(b, k).Some?
      ensures Get(a, k).Some? ==> SameValue(Get(a, k).value, Get(b, k).value)
    {
      GetWithout(a, ENTRY_SHA, k);
      GetWithout(b, ENTRY_SHA, k);
      SameGet(Body(a), Body(b), k);
    }
    SameByGet(a, b);
  }

  lemma SamePredecessor(h: Hash, x: seq<Field>, y: seq<Field>, a: seq<Value>, b: seq<Value>)
    requires Clean(h, a) && Clean(h, b)
    requires LinksTo(x, Link(a)) && LinksTo(y, Link(b))
    requires SameValue(Get(x, PREV).value, Get(y, PREV).value)
    ensures Link(a) == Link(b)
  {
    HeadIsLink(h, a);
    HeadIsLink(h, b);
  }

  lemma GenesisMeansEmpty(h: Hash, rows: seq<Value>)
    requires Clean(h, rows) && (|rows| > 0 ==> NotGenesis(h, rows[|rows| - 1]))
    requires Link(rows) == Str(GENESIS)
    ensures rows == []
  {
    if |rows| > 0 {
      LastRow(h, rows);
    }
  }

  /** What a clean chain says of its last row. */
  lemma LastRow(h: Hash, rows: seq<Value>)
    requires Clean(h, rows) && |rows| > 0
    ensures var n := |rows| - 1;
      && Clean(h, rows[..n]) && RowChains(h, rows, n)
      && Link(rows) == Str(h(BodyText(rows[n])))
  {
    LinkIsDigest(h, rows);
    CleanIff(h, rows);
    CleanPrefix(h, rows, |rows| - 1);
  }

  /** Equal heads: the last rows are one row, and the heads before them are equal again. */
  lemma LastRowsAgree(h: Hash, a: seq<Value>, b: seq<Value>)
    requires |a| > 0 && |b| > 0
    requires Clean(h, a) && Clean(h, b) && Plain(a[|a| - 1]) && Plain(b[|b| - 1])
    requires Tells(h, a[|a| - 1], b[|b| - 1])
    requires Link(a) == Link(b)
    ensures SameValue(a[|a| - 1], b[|b| - 1])
    ensures Clean(h, a[..|a| - 1]) && Clean(h, b[..|b| - 1])
    ensures Link(a[..|a| - 1]) == Link(b[..|b| - 1])
  {
    var x, y := a[|a| - 1], b[|b| - 1];
    LastRow(h, a);
    LastRow(h, b);
    SameBodySameRow(h, x.fields, y.fields);
    SamePredecessor(h, x.fields, y.fields, a[..|a| - 1], b[..|b| - 1]);
  }

  /** Two clean chains of plain rows that meet in one head. */
  predicate Meet(h: Hash, a: seq<Value>, b: seq<Value>) {
    Clean(h, a) && Clean(h, b) && AllPlain(a) && AllPlain(b) && NoBreachAcross(h, a, b) && Link(a) == Link(b)
  }

  lemma MeetBothEmpty(h: Hash, a: seq<Value>, b: seq<Value>)
    requires Meet(h, a, b)
    ensures |a| == 0 <==> |b| == 0
  {
    if |a| == 0 && |b| > 0 {
      assert NotGenesis(h, b[|b| - 1]);
      GenesisMeansEmpty(h, b);
    } else if |b| == 0 && |a| > 0 {
      assert NotGenesis(h, a[|a| - 1]);
      GenesisMeansEmpty(h, a);
    }
  }

  lemma NoBreachPrefix(h: Hash, a: seq<Value>, b: seq<Value>, m: nat, n: nat)
    requires NoBreachAcross(h, a, b) && m <= |a| && n <= |b|
    ensures NoBreachAcross(h, a[..m], b[..n])
  {
    forall i, j | 0 <= i < m && 0 <= j < n
      ensures Tells(h, a[..m][i], b[..n][j])
    {
      assert Tells(h, a[i], b[j]);
    }
    forall i | 0 <= i < m
      ensures NotGenesis(h, a[..m][i])
    {
      assert NotGenesis(h, a[i]);
    }
    forall j | 0 <= j < n
      ensures NotGenesis(h, b[..n][j])
    {
      assert NotGenesis(h, b[j]);
    }
  }

  lemma AllPlainPrefix(rows: seq<Value>, n: nat)
    requires AllPlain(rows) && n <= |rows|
    ensures AllPlain(rows[..n])
  {
  }

  lemma MeetLast(h: Hash, a: seq<Value>, b: seq<Value>)
    requires Meet(h, a, b) && |a| > 0 && |b| > 0
    ensures SameValue(a[|a| - 1], b[|b| - 1])
    ensures Clean(h, a[..|a| - 1]) && Clean(h, b[..|b| - 1])
    ensures Link(a[..|a| - 1]) == Link(b[..|b| - 1])
  {
    assert Tells(h, a[|a| - 1], b[|b| - 1]);
    LastRowsAgree(h, a, b);
  }

  lemma MeetBefore(h: Hash, a: seq<Value>, b: seq<Value>)
    requires Meet(h, a, b) && |a| > 0 && |b| > 0
    ensures SameValue(a[|a| - 1], b[|b| - 1])
    ensures Meet(h, a[..|a| - 1], b[..|b| - 1])
  {
    MeetLast(h, a, b);
    NoBreachPrefix(h, a, b, |a| - 1, |b| - 1);
    AllPlainPrefix(a, |a| - 1);
    AllPlainPrefix(b, |b| - 1);
  }

  /** The same rows in the same order. */
  predicate SameRows(a: seq<Value>, b: seq<Value>) {
    |a| == |b| && forall i {:trigger SameValue(a[i], b[i])} :: 0 <= i < |a| ==> SameValue(a[i], b[i])
  }

  lemma SameRowsSnoc(a: seq<Value>, b: seq<Value>)
    requires |a| > 0 && |b| > 0
    requires SameRows(a[..|a| - 1], b[..|b| - 1]) && SameValue(a[|a| - 1], b[|b| - 1])
    ensures SameRows(a, b)
  {
    var a', b' := a[..|a| - 1], b[..|b| - 1];
    forall i | 0 <= i < |a|
      ensures SameValue(a[i], b[i])
    {
      if i < |a'| {
        assert SameValue(a'[i], b'[i]);
      }
    }
  }

  /**
   Two clean ledgers with one head hold the same rows in the same order, whatever
   their lengths.  So an edit, deletion, insertion or reorder that keeps the head
   is reported -- unless it exhibits a digest collision among these very rows.
   */
  lemma {:induction false} HeadFixesHistory(h: Hash, a: seq<Value>, b: seq<Value>)
    requires NoBreachAcross(h, a, b) && AllPlain(a) && AllPlain(b)
    requires Clean(h, a) && Clean(h, b) && Link(a) == Link(b)
    ensures SameRows(a, b)
  {
    MeetFixesHistory(h, a, b);
  }

  lemma {:induction false} MeetFixesHistory(h: Hash, a: seq<Value>, b: seq<Value>)
    requires Meet(h, a, b)
    ensures SameRows(a, b)
    decreases |a|
  {
    MeetBothEmpty(h, a, b);
    if |a| > 0 {
      MeetBefore(h, a, b);
      MeetFixesHistory(h, a[..|a| - 1], b[..|b| - 1]);
      SameRowsSnoc(a, b);
    }
  }

  /** In a clean chain no two different lengths share a head. */
  lemma HeadsDiffer(h: Hash, rows: seq<Value>, i: nat, j: nat)
    requires Clean(h, rows) && AllPlain(rows) && NoBreach(h, rows)
    requires i < j <= |rows|
    ensures Link(rows[..i]) != Link(rows[..j])
  {
    if Link(rows[..i]) == Link(rows[..j]) {
      CleanPrefix(h, rows, i);
      CleanPrefix(h, rows, j);
      NoBreachPrefix(h, rows, rows, i, j);
      HeadFixesHistory(h, rows[..i], rows[..j]);
    }
  }

  /** The same, for ledger files as they stand on disk. */
  lemma FilesWithOneHead(h: Hash, a: string, b: string)
    requires EntriesOf(a).Ok? && EntriesOf(b).Ok?
    requires Clean(h, EntriesOf(a).value) && Clean(h, EntriesOf(b).value)
    requires NoBreachAcross(h, EntriesOf(a).value, EntriesOf(b).value)
    requires HeadOf(EntriesOf(a).value) == HeadOf(EntriesOf(b).value)
    ensures SameRows(EntriesOf(a).value, EntriesOf(b).value)
  {
    EntriesArePlain(a);
    EntriesArePlain(b);
    HeadIsLink(h, EntriesOf(a).value);
    HeadIsLink(h, EntriesOf(b).value);
    HeadFixesHistory(h, EntriesOf(a).value, EntriesOf(b).value);
  }

  // ---- what an append does to the chain ---------------------------------------------------

  /** The row the file holds after an entry was appended. */
  function RowOf(entry: seq<Field>): Value {
    SortedForm(Obj(entry))
  }

  lemma ChainedFields(payload: seq<Field>, count: nat, head: Value, now: PyString)
    requires Plain(Obj(payload)) && Plain(head) && NoSplit(now)
    ensures var body := Chained(payload, count, head, now);
      && Plain(Obj(body))
      && Get(body, PREV) == Some(head)
      && Get(body, ENTRY_SHA) == Get(payload, ENTRY_SHA)
  {
    KeysDiffer();
    var p1 := Put(payload, SEQ, Int(count + 1));
    var p2 := Put(p1, PREV, head);
    PutPlain(payload, SEQ, Int(count + 1));
    PutPlain(p1, PREV, head);
    PutPlain(p2, APPENDED, Str(now));
    GetPut(payload, SEQ, Int(count + 1), ENTRY_SHA);
    GetPut(p1, PREV, head, ENTRY_SHA);
    GetPut(p2, APPENDED, Str(now), ENTRY_SHA);
    GetPut(p1, PREV, head, PREV);
    GetPut(p2, APPENDED, Str(now), PREV);
  }

  lemma SealedEntry(h: Hash, body: seq<Field>)
    requires Plain(Obj(body))
    ensures Plain(Obj(Sealed(h, body)))
    ensures Get(Sealed(h, body), PREV) == Get(body, PREV)
    ensures Get(Sealed(h, body), ENTRY_SHA) == Some(DigestOf(h, Obj(body)))
    ensures Without(Sealed(h, body), ENTRY_SHA) == Without(body, ENTRY_SHA)
  {
    KeysDiffer();
    var d := DigestOf(h, Obj(body));
    PutPlain(body, ENTRY_SHA, d);
    GetPut(body, ENTRY_SHA, d, PREV);
    GetPut(body, ENTRY_SHA, d, ENTRY_SHA);
    WithoutPut(body, ENTRY_SHA, d);
  }

  /** The row read back for an entry: its strings are the entry's, and so is its body. */
  lemma RowOfEntry(entry: seq<Field>, key: PyString)
    requires Plain(Obj(entry))
    ensures RowOf(entry).Obj? && Plain(RowOf(entry))
    ensures Get(entry, key).Some? && Get(entry, key).value.Str? ==> Get(RowOf(entry).fields, key) == Get(entry, key)
    ensures Get(entry, key).None? ==> Get(RowOf(entry).fields, key).None?
    ensures BodyText(RowOf(entry)) == Canonical(Obj(Body(entry)))
  {
    SortedFormSame(Obj(entry));
    var row := RowOf(entry).fields;
    SameGet(row, entry, key);
    SameWithout(row, entry, ENTRY_SHA);
    WithoutUnique(row, ENTRY_SHA);
    WithoutUnique(entry, ENTRY_SHA);
    WithoutPlain(row, ENTRY_SHA);
    WithoutPlain(entry, ENTRY_SHA);
    SameValueIffSorted(Obj(Body(row)), Obj(Body(entry)));
  }

  /** The row written for a sealed body: its link, its own digest and the body it is checked against. */
  lemma SealedRow(h: Hash, body: seq<Field>)
    requires Plain(Obj(body)) && Get(body, PREV).Some? && Get(body, PREV).value.Str?
    ensures var row := RowOf(Sealed(h, body));
      && Plain(Obj(Sealed(h, body))) && row.Obj? && Plain(row)
      && Get(row.fields, PREV) == Get(body, PREV)
      && Get(row.fields, ENTRY_SHA) == Some(DigestOf(h, Obj(body)))
      && BodyText(row) == Canonical(Obj(Body(body)))
  {
    SealedEntry(h, body);
    RowOfEntry(Sealed(h, body), PREV);
    RowOfEntry(Sealed(h, body), ENTRY_SHA);
  }

  /** A body with the digest key in it prints differently from the same body without it. */
  lemma RemovedKeyShows(body: seq<Field>)
    requires Plain(Obj(body))
    ensures Canonical(Obj(Without(body, ENTRY_SHA))) == Canonical(Obj(body)) <==> !Has(body, ENTRY_SHA)
  {
    if Has(body, ENTRY_SHA) {
      WithoutPlain(body, ENTRY_SHA);
      CanonicalIffSameValue(Obj(Without(body, ENTRY_SHA)), Obj(body));
      GetWithout(body, ENTRY_SHA, ENTRY_SHA);
      if SameValue(Obj(Without(body, ENTRY_SHA)), Obj(body)) {
        SameGet(Without(body, ENTRY_SHA), body, ENTRY_SHA);
      }
    } else {
      WithoutAbsent(body, ENTRY_SHA);
    }
  }

  /**
   An append to a clean chain keeps it clean exactly when the payload does not
   already hold the key the digest goes under -- or the digest collides on the
   entry with and without that key.
   */
  lemma AppendKeepsClean(h: Hash, rows: seq<Value>, payload: seq<Field>, now: PyString)
    requires Clean(h, rows)
    requires Plain(Obj(payload)) && NoSplit(now)
    ensures EntryFor(h, payload, rows, now).Ok? && HeadOf(rows).Ok?
    ensures var entry, body := EntryFor(h, payload, rows, now).value, Chained(payload, |rows|, HeadOf(rows).value, now);
      && Plain(Obj(entry))
      && (Clean(h, rows + [RowOf(entry)])
          <==> (Has(payload, ENTRY_SHA) ==> h(Canonical(Obj(body))) == h(Canonical(Obj(Without(body, ENTRY_SHA))))))
      && (Has(payload, ENTRY_SHA) ==> Canonical(Obj(body)) != Canonical(Obj(Without(body, ENTRY_SHA))))
  {
    HeadIsLink(h, rows);
    HeadPlain(h, rows);
    var head := HeadOf(rows).value;
    var body := Chained(payload, |rows|, head, now);
    ChainedFields(payload, |rows|, head, now);
    SealedRow(h, body);
    RemovedKeyShows(body);
    var row := RowOf(Sealed(h, body));
    CleanSnoc(h, rows, row);
    assert (rows + [row])[..|rows|] == rows;
  }

  lemma HeadPlain(h: Hash, rows: seq<Value>)
    requires Clean(h, rows)
    ensures HeadOf(rows).Ok? && Plain(HeadOf(rows).value)
  {
    KeysDiffer();
    HeadIsLink(h, rows);
    if |rows| > 0 {
      LinkIsDigest(h, rows);
    }
  }
}
