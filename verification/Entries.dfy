/** What the ledger's lines and rows hold, what its report lists, and what a query finds. */
module Entries {
  import opened Outcomes
  import opened Json
  import opened JsonCanonical
  import opened JsonParsed
  import opened Dicts
  import opened Ledgers
  import opened LedgerFile
  import opened Chain
  import Appends
  import Text

  // ---- the fields of an entry ------------------------------------------------------------

  /** What an entry built over `count` rows holds under a key. */
  function Expected(h: Hash, payload: seq<Field>, count: nat, head: Value, now: PyString, entry: seq<Field>,
          key: PyString): Option<Value> {
    if key == Py("entry_sha256") then Some(DigestOf(h, Obj(Without(entry, Py("entry_sha256")))))
    else if key == Py("appended_utc") then Some(Str(now))
    else if key == Py("prev") then Some(head)
    else if key == Py("seq") then Some(Int(count + 1))
    else Get(payload, key)
  }

  lemma ExpectedIs(h: Hash, payload: seq<Field>, count: nat, head: Value, now: PyString, entry: seq<Field>,
          key: PyString)
    ensures Expected(h, payload, count, head, now, entry, key) ==
      if key == ENTRY_SHA then Some(DigestOf(h, Obj(Without(entry, ENTRY_SHA))))
      else if key == APPENDED then Some(Str(now)) else if key == PREV then Some(head)
      else if key == SEQ then Some(Int(count + 1)) else Get(payload, key)
  {
  }

  lemma ChainedHolds(payload: seq<Field>, count: nat, head: Value, now: PyString, key: PyString)
    requires UniqueKeys(payload)
    ensures var body := Chained(payload, count, head, now);
      && UniqueKeys(body)
      && Get(body, key) == if key == APPENDED then Some(Str(now)) else if key == PREV then Some(head)
                           else if key == SEQ then Some(Int(count + 1)) else Get(payload, key)
  {
    KeysDiffer();
    var p1 := Put(payload, SEQ, Int(count + 1));
    var p2 := Put(p1, PREV, head);
    PutKeepsUnique(payload, SEQ, Int(count + 1));
    PutKeepsUnique(p1, PREV, head);
    PutKeepsUnique(p2, APPENDED, Str(now));
    GetPut(payload, SEQ, Int(count + 1), key);
    GetPut(p1, PREV, head, key);
    GetPut(p2, APPENDED, Str(now), key);
  }

  lemma SealedHolds(h: Hash, body: seq<Field>, key: PyString)
    requires UniqueKeys(body) && !Has(body, ENTRY_SHA)
    ensures UniqueKeys(Sealed(h, body)) && Without(Sealed(h, body), ENTRY_SHA) == body
    ensures Get(Sealed(h, body), key) == if key == ENTRY_SHA then Some(DigestOf(h, Obj(body))) else Get(body, key)
  {
    var d := DigestOf(h, Obj(body));
    PutKeepsUnique(body, ENTRY_SHA, d);
    GetPut(body, ENTRY_SHA, d, key);
    WithoutPut(body, ENTRY_SHA, d);
    WithoutAbsent(body, ENTRY_SHA);
  }

  lemma SealedExpected(h: Hash, payload: seq<Field>, count: nat, head: Value, now: PyString, body: seq<Field>,
          key: PyString)
    requires UniqueKeys(body) && !Has(body, ENTRY_SHA)
    requires Get(body, key) == if key == APPENDED then Some(Str(now)) else if key == PREV then Some(head)
                               else if key == SEQ then Some(Int(count + 1)) else Get(payload, key)
    ensures UniqueKeys(Sealed(h, body))
    ensures Get(Sealed(h, body), key) == Expected(h, payload, count, head, now, Sealed(h, body), key)
  {
    SealedHolds(h, body, key);
    ExpectedIs(h, payload, count, head, now, Sealed(h, body), key);
  }

  lemma ChainedLacksDigest(payload: seq<Field>, count: nat, head: Value, now: PyString)
    requires UniqueKeys(payload) && !Has(payload, ENTRY_SHA)
    ensures !Has(Chained(payload, count, head, now), ENTRY_SHA)
  {
    KeysDiffer();
    ChainedHolds(payload, count, head, now, ENTRY_SHA);
  }

  /** An entry holds its number, its predecessor's digest, the time, its own digest, and else the payload. */
  lemma EntryHolds(h: Hash, payload: seq<Field>, rows: seq<Value>, now: PyString, key: PyString)
    requires UniqueKeys(payload) && !Has(payload, ENTRY_SHA) && HeadOf(rows).Ok?
    ensures EntryFor(h, payload, rows, now).Ok?
    ensures var entry := EntryFor(h, payload, rows, now).value;
      && UniqueKeys(entry)
      && Get(entry, key) == Expected(h, payload, |rows|, HeadOf(rows).value, now, entry, key)
  {
    ChainedHolds(payload, |rows|, HeadOf(rows).value, now, key);
    ChainedLacksDigest(payload, |rows|, HeadOf(rows).value, now);
    SealedExpected(h, payload, |rows|, HeadOf(rows).value, now, Chained(payload, |rows|, HeadOf(rows).value, now), key);
  }

  /**
   The row read back behind an append to any readable ledger: it is the last one,
   and holds under every key what the entry holds.
   */
  lemma AppendedRow(h: Hash, text: string, payload: seq<Field>, now: PyString, key: PyString)
    requires Terminated(text) && EntriesOf(text).Ok? && Appends.HeadReadable(EntriesOf(text).value)
    requires Plain(Obj(payload)) && !Has(payload, ENTRY_SHA) && NoSplit(now)
    ensures EntryFor(h, payload, EntriesOf(text).value, now).Ok?
    ensures var rows := EntriesOf(text).value; var entry := EntryFor(h, payload, rows, now).value;
            var after := EntriesOf(text + LineOf(entry));
            var held := Expected(h, payload, |rows|, HeadOf(rows).value, now, entry, key);
      && after.Ok? && |after.value| == |rows| + 1 && after.value[..|rows|] == rows && after.value[|rows|].Obj?
      && (held.Some? <==> Get(after.value[|rows|].fields, key).Some?)
      && (held.Some? ==> SameValue(Get(after.value[|rows|].fields, key).value, held.value))
  {
    var rows := EntriesOf(text).value;
    Appends.WrittenRow(h, rows, payload, now);
    EntryHolds(h, payload, rows, now, key);
    var entry := EntryFor(h, payload, rows, now).value;
    FileRoundTrip(text, entry);
    SortedFormSame(Obj(entry));
    assert (rows + [RowOf(entry)])[..|rows|] == rows;
    SameGet(RowOf(entry).fields, entry, key);
  }

  /** The head is the last row's digest; it is missing exactly when the last row is no object with one. */
  lemma HeadIs(rows: seq<Value>)
    ensures HeadOf(rows) ==
      if rows == [] then Ok(Str(GENESIS))
      else if !rows[|rows| - 1].Obj? then Err("TypeError")
      else
        var recorded := Get(rows[|rows| - 1].fields, Py("entry_sha256"));
        if recorded.None? then Err("KeyError") else Ok(recorded.value)
  {
  }

  // ---- what the report lists ------------------------------------------------------------

  /** What the row after `rows` must link to: the digest recorded in the last one, or GENESIS. */
  function LinkBehind(rows: seq<Value>): Value
    requires AllObjects(rows)
  {
    if rows == [] then Str(GENESIS)
    else
      var recorded := Get(rows[|rows| - 1].fields, Py("entry_sha256"));
      if recorded.None? || Falsy(recorded.value) then Str(GENESIS) else recorded.value
  }

  /** Python's false values. */
  predicate Falsy(v: Value) {
    || v in {Null, Bool(false), Int(0), Str([]), Arr([]), Obj([])}
    || (v.Float? && forall i :: 0 <= i < Mantissa(v.token) ==> !('1' <= v.token[i] <= '9'))
  }

  lemma FalsyIff(v: Value)
    ensures Truthy(v) <==> !Falsy(v)
  {
  }

  /** The report of one row: its digest first, then its link. */
  predicate Reports(h: Hash, row: seq<Field>, link: Value, found: seq<Problem>) {
    var number := Get(row, Py("seq"));
    var sound := Get(row, Py("entry_sha256")) == Some(DigestOf(h, Obj(Without(row, Py("entry_sha256")))));
    var linked := Get(row, Py("prev")).Some? && SameValue(Get(row, Py("prev")).value, link);
    && (sound && linked ==> found == [])
    && (!sound && linked ==> found == [DigestMismatch(number)])
    && (sound && !linked ==> found == [BrokenLink(number)])
    && (!sound && !linked ==> found == [DigestMismatch(number), BrokenLink(number)])
  }

  predicate AllObjects(rows: seq<Value>) {
    forall i :: 0 <= i < |rows| ==> rows[i].Obj?
  }

  lemma FirstProblems(h: Hash, first: Value, rest: seq<Value>, previous: Value)
    requires first.Obj?
    ensures ProblemsFrom(h, [first] + rest, previous)
         == Prefixed(RowProblems(h, first.fields, previous), ProblemsFrom(h, rest, LinkAfter(first.fields)))
  {
    assert ([first] + rest)[1..] == rest;
  }

  /** The link that a row behind `rows` is checked against, when the first of all is checked against `previous`. */
  function LinkAt(rows: seq<Value>, previous: Value): Value
    requires AllObjects(rows)
  {
    if rows == [] then previous else LinkAfter(rows[|rows| - 1].fields)
  }

  lemma LinkBehindFirst(first: Value, rest: seq<Value>, previous: Value)
    requires AllObjects([first] + rest)
    ensures first.Obj? && AllObjects(rest)
    ensures LinkAt([first] + rest, previous) == LinkAt(rest, LinkAfter(first.fields))
  {
    assert ([first] + rest)[0] == first && ([first] + rest)[1..] == rest;
    assert rest != [] ==> ([first] + rest)[|rest|] == rest[|rest| - 1];
  }

  /** A report with `more` behind it. */
  function Extended(r: Result<seq<Problem>>, more: seq<Problem>): Result<seq<Problem>> {
    match r
    case Ok(found) => Ok(found + more)
    case Err(e) => Err(e)
  }

  lemma ExtendedBehind(a: seq<Problem>, r: Result<seq<Problem>>, more: seq<Problem>)
    ensures Prefixed(a, Extended(r, more)) == Extended(Prefixed(a, r), more)
  {
    if r.Ok? {
      assert a + (r.value + more) == a + r.value + more;
    }
  }

  lemma {:induction false} ProblemsSnoc(h: Hash, rows: seq<Value>, row: Value, previous: Value)
    requires row.Obj? && AllObjects(rows)
    ensures ProblemsFrom(h, rows, previous).Ok?
    ensures ProblemsFrom(h, rows + [row], previous)
         == Extended(ProblemsFrom(h, rows, previous), RowProblems(h, row.fields, LinkAt(rows, previous)))
    decreases |rows|
  {
    if rows == [] {
      var found := RowProblems(h, row.fields, previous);
      FirstProblems(h, row, [], previous);
      assert rows + [row] == [row] + [] && found + [] == found == [] + found;
    } else {
      var first, rest := rows[0], rows[1..];
      assert rows == [first] + rest && rows + [row] == [first] + (rest + [row]);
      LinkBehindFirst(first, rest, previous);
      ProblemsSnoc(h, rest, row, LinkAfter(first.fields));
      ProblemsBehind(h, first, rest, row, previous, RowProblems(h, row.fields, LinkAt(rows, previous)));
    }
  }

  lemma ProblemsBehind(h: Hash, first: Value, rest: seq<Value>, row: Value, previous: Value, more: seq<Problem>)
    requires first.Obj? && ProblemsFrom(h, rest, LinkAfter(first.fields)).Ok?
    requires ProblemsFrom(h, rest + [row], LinkAfter(first.fields))
          == Extended(ProblemsFrom(h, rest, LinkAfter(first.fields)), more)
    ensures ProblemsFrom(h, [first] + rest, previous).Ok?
    ensures ProblemsFrom(h, [first] + (rest + [row]), previous)
         == Extended(ProblemsFrom(h, [first] + rest, previous), more)
  {
    FirstProblems(h, first, rest, previous);
    FirstProblems(h, first, rest + [row], previous);
    ExtendedBehind(RowProblems(h, first.fields, previous), ProblemsFrom(h, rest, LinkAfter(first.fields)), more);
  }

  /** Each row is reported behind those before it, on its own digest and on what the row before it records. */
  lemma ReportGrows(h: Hash, rows: seq<Value>, row: Value) returns (found: seq<Problem>)
    requires row.Obj? && AllObjects(rows)
    ensures Reports(h, row.fields, LinkBehind(rows), found)
    ensures ProblemsFrom(h, rows, Str(GENESIS)).Ok? && ProblemsFrom(h, rows + [row], Str(GENESIS)).Ok?
    ensures ProblemsFrom(h, rows + [row], Str(GENESIS)).value == ProblemsFrom(h, rows, Str(GENESIS)).value + found
  {
    ProblemsSnoc(h, rows, row, Str(GENESIS));
    found := RowProblems(h, row.fields, LinkBehind(rows));
    if rows != [] && Get(rows[|rows| - 1].fields, ENTRY_SHA).Some? {
      FalsyIff(Get(rows[|rows| - 1].fields, ENTRY_SHA).value);
    }
  }

  // ---- what a query finds ----------------------------------------------------------------

  /** Under every key of the criteria the row has the value asked for; an absent key has null. */
  predicate Meets(row: seq<Field>, criteria: seq<Field>) {
    forall i :: 0 <= i < |criteria| ==>
      var held := Get(row, criteria[i].key);
      SameValue(if held.Some? then held.value else Null, criteria[i].value)
  }

  /** A query keeps exactly the rows that meet the criteria, in their order; any row but an object makes it raise. */
  lemma {:induction false} QueryGrows(rows: seq<Value>, row: Value, criteria: seq<Field>)
    ensures Matching([], criteria) == Ok([])
    ensures var before, now := Matching(rows, criteria), Matching(rows + [row], criteria);
      && (now.Ok? <==> before.Ok? && row.Obj?)
      && (now.Ok? ==> now.value == before.value + if Meets(row.fields, criteria) then [row] else [])
  {
    if rows == [] {
      assert (rows + [row])[1..] == [];
    } else {
      assert (rows + [row])[1..] == rows[1..] + [row];
      QueryGrows(rows[1..], row, criteria);
    }
  }

  // ---- lines ---------------------------------------------------------------------------------

  /** A text without a line break is one line, and a line break ends a line and starts the next. */
  lemma {:induction false} LinesAre(line: string, c: char, rest: string)
    requires forall i :: 0 <= i < |line| ==> !IsLineBreak(line[i])
    requires IsLineBreak(c)
    ensures Lines(line) == if line == "" then [] else [line]
    ensures Lines(line + [c] + rest) == [line] + Lines(rest)
  {
    LengthIs(line, "");
    assert line + "" == line;
    var text := line + [c] + rest;
    assert text == line + ([c] + rest) && ([c] + rest)[0] == c;
    LengthIs(line, [c] + rest);
    assert text[..|line|] == line && text[|line| + 1..] == rest;
  }

  lemma {:induction false} LengthIs(line: string, rest: string)
    requires forall i :: 0 <= i < |line| ==> !IsLineBreak(line[i])
    requires rest == "" || IsLineBreak(rest[0])
    ensures LineLength(line + rest) == |line|
  {
    if line == "" {
      assert line + rest == rest;
    } else {
      assert (line + rest)[1..] == line[1..] + rest;
      LengthIs(line[1..], rest);
    }
  }

  /** A line with no word in it adds nothing; any other line adds its value, or makes reading raise. */
  lemma LineReads(line: string, lines: seq<string>)
    ensures RowsOf([]) == Ok([])
    ensures (forall i :: 0 <= i < |line| ==> Text.IsSpace(line[i])) ==> RowsOf([line] + lines) == RowsOf(lines)
    ensures (exists i :: 0 <= i < |line| && !Text.IsSpace(line[i])) ==>
      var row := Loads(Text.Strip(line));
      RowsOf([line] + lines) == if row.Ok? then Prefixed([row.value], RowsOf(lines)) else Err(row.reason)
  {
    assert ([line] + lines)[1..] == lines;
    var before, behind := Text.StripIs(line);
  }
}
