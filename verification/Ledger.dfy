/**
 The append-only, hash-chained run ledger: a text file of JSON lines, each entry
 carrying the digest of the entry before it.
 */
module Ledgers {
  import opened Outcomes
  import opened Json
  import opened JsonCanonical
  import Text

  /** A digest as text: 64 hexadecimal digits.  The digest function is a parameter of everything below. */
  type Digest = s: PyString | |s| == 64 && IsHex(s) witness Zeros(64)

  predicate IsHex(s: PyString) {
    forall i :: 0 <= i < |s| ==> '0' as int <= s[i] <= '9' as int || 'a' as int <= s[i] <= 'f' as int
  }

  /** A string of `n` zeros. */
  function Zeros(n: nat): (r: PyString)
    ensures |r| == n && forall i :: 0 <= i < n ==> r[i] == '0' as int
  {
    if n == 0 then [] else ['0' as int] + Zeros(n - 1)
  }

  type Hash = string -> Digest

  const GENESIS: Digest := Zeros(64)

  const SEQ := Py("seq")
  const PREV := Py("prev")
  const APPENDED := Py("appended_utc")
  const ENTRY_SHA := Py("entry_sha256")

  // ---- lines ------------------------------------------------------------------

  /** The characters `str.splitlines` ends a line at. */
  predicate IsLineBreak(c: char) {
    '\n' <= c <= '\r' || 0x1C as char <= c <= 0x1E as char || c == 0x85 as char || 0x2028 as char <= c <= 0x2029 as char
  }

  /** Length of the first line, without its line break. */
  function LineLength(text: string): (n: nat)
    ensures n <= |text|
  {
    if |text| == 0 || IsLineBreak(text[0]) then 0 else 1 + LineLength(text[1..])
  }

  function Lines(text: string): seq<string> {
    if |text| == 0 then []
    else
      var n := LineLength(text);
      if n == |text| then [text] else [text[..n]] + Lines(text[n + 1..])
  }

  // ---- rows -------------------------------------------------------------------

  /** A result with `head` put in front of its sequence. */
  function Prefixed<T>(head: seq<T>, r: Result<seq<T>>): Result<seq<T>> {
    match r
    case Ok(more) => Ok(head + more)
    case Err(e) => Err(e)
  }

  lemma PrefixedTwice<T>(a: seq<T>, b: seq<T>, r: Result<seq<T>>)
    ensures Prefixed(a, Prefixed(b, r)) == Prefixed(a + b, r)
  {
    if r.Ok? {
      assert a + (b + r.value) == a + b + r.value;
    }
  }

  lemma PrefixedNone<T>(r: Result<seq<T>>)
    ensures Prefixed([], r) == r
  {
    if r.Ok? {
      assert [] + r.value == r.value;
    }
  }

  /** The rows of a list of lines; blank lines are skipped and a bad line raises. */
  function RowsOf(lines: seq<string>): Result<seq<Value>> {
    if |lines| == 0 then Ok([])
    else if |Text.Strip(lines[0])| == 0 then RowsOf(lines[1..])
    else
      var row :- Loads(Text.Strip(lines[0]));
      Prefixed([row], RowsOf(lines[1..]))
  }

  /** What `entries()` reads out of a file; a missing file reads as the empty text. */
  function EntriesOf(text: string): Result<seq<Value>> {
    RowsOf(Lines(text))
  }

  /** `rows[-1]["entry_sha256"]`, or GENESIS when there are no rows. */
  function HeadOf(rows: seq<Value>): Result<Value> {
    if |rows| == 0 then Ok(Str(GENESIS))
    else
      match rows[|rows| - 1]
      case Obj(fields) => if Has(fields, ENTRY_SHA) then Ok(Get(fields, ENTRY_SHA).value) else Err("KeyError")
      case _ => Err("TypeError")
  }

  function DigestOf(h: Hash, v: Value): Value {
    Str(h(Canonical(v)))
  }

  /** The fields `append` digests: the payload with its place in the chain. */
  function Chained(payload: seq<Field>, count: nat, head: Value, now: PyString): seq<Field> {
    Put(Put(Put(payload, SEQ, Int(count + 1)), PREV, head), APPENDED, Str(now))
  }

  /** The entry with its own digest over every field it holds at that moment. */
  function Sealed(h: Hash, body: seq<Field>): seq<Field> {
    Put(body, ENTRY_SHA, DigestOf(h, Obj(body)))
  }

  /** The entry `append` writes after `rows`. */
  function EntryFor(h: Hash, payload: seq<Field>, rows: seq<Value>, now: PyString): Result<seq<Field>> {
    var head :- HeadOf(rows);
    Ok(Sealed(h, Chained(payload, |rows|, head, now)))
  }

  function LineOf(entry: seq<Field>): string {
    Canonical(Obj(entry)) + "\n"
  }

  // ---- verification -----------------------------------------------------------

  datatype Problem = DigestMismatch(number: Option<Value>) | BrokenLink(number: Option<Value>)

  /** Where the exponent of a float starts. */
  function Mantissa(token: FloatToken): (n: nat)
    ensures n <= |token|
  {
    IntLength(token) + FractionLength(token[IntLength(token)..])
  }

  predicate Truthy(v: Value) {
    match v
    case Null => false
    case Bool(b) => b
    case Int(n) => n != 0
    case Float(token) => exists i :: 0 <= i < Mantissa(token) && '1' <= token[i] <= '9'
    case Str(s) => |s| > 0
    case Arr(items) => |items| > 0
    case Obj(fields) => |fields| > 0
  }

  /** `recorded or GENESIS`. */
  function LinkAfter(row: seq<Field>): Value {
    match Get(row, ENTRY_SHA)
    case Some(v) => if Truthy(v) then v else Str(GENESIS)
    case None => Str(GENESIS)
  }

  function Body(row: seq<Field>): seq<Field> {
    Without(row, ENTRY_SHA)
  }

  predicate DigestMatches(h: Hash, row: seq<Field>) {
    Get(row, ENTRY_SHA) == Some(DigestOf(h, Obj(Body(row))))
  }

  /** `row.get("prev") == previous`; `previous` is never null, so an absent key never matches. */
  predicate LinksTo(row: seq<Field>, previous: Value) {
    Get(row, PREV).Some? && SameValue(Get(row, PREV).value, previous)
  }

  function RowProblems(h: Hash, row: seq<Field>, previous: Value): seq<Problem> {
    (if DigestMatches(h, row) then [] else [DigestMismatch(Get(row, SEQ))])
    + (if LinksTo(row, previous) then [] else [BrokenLink(Get(row, SEQ))])
  }

  /** The problems of a chain whose first row must link to `previous`. */
  function ProblemsFrom(h: Hash, rows: seq<Value>, previous: Value): Result<seq<Problem>> {
    if |rows| == 0 then Ok([])
    else
      match rows[0]
      case Obj(row) => Prefixed(RowProblems(h, row, previous), ProblemsFrom(h, rows[1..], LinkAfter(row)))
      case _ => Err("AttributeError")
  }

  /** One turn of the loop in `verify`. */
  lemma ProblemsStep(h: Hash, rows: seq<Value>, i: nat, problems: seq<Problem>, previous: Value)
    requires i < |rows|
    ensures Prefixed(problems, ProblemsFrom(h, rows[i..], previous)) ==
      if rows[i].Obj?
      then Prefixed(problems + RowProblems(h, rows[i].fields, previous),
          ProblemsFrom(h, rows[i + 1..], LinkAfter(rows[i].fields)))
      else Err("AttributeError")
  {
    assert rows[i..][0] == rows[i] && rows[i..][1..] == rows[i + 1..];
    if rows[i].Obj? {
      PrefixedTwice(problems, RowProblems(h, rows[i].fields, previous),
                    ProblemsFrom(h, rows[i + 1..], LinkAfter(rows[i].fields)));
    }
  }

  predicate Clean(h: Hash, rows: seq<Value>) {
    ProblemsFrom(h, rows, Str(GENESIS)) == Ok([])
  }

  // ---- queries ----------------------------------------------------------------

  /** `row.get(key)` as a value: an absent key reads as None, which is what a null reads as too. */
  function GetOrNull(row: seq<Field>, key: PyString): Value {
    if Has(row, key) then Get(row, key).value else Null
  }

  /** Every criterion holds of the row. */
  predicate Matches(row: seq<Field>, criteria: seq<Field>) {
    forall i :: 0 <= i < |criteria| ==> SameValue(GetOrNull(row, criteria[i].key), criteria[i].value)
  }

  function Matching(rows: seq<Value>, criteria: seq<Field>): Result<seq<Value>> {
    if |rows| == 0 then Ok([])
    else if !rows[0].Obj? then Err("AttributeError")
    else Prefixed(if Matches(rows[0].fields, criteria) then [rows[0]] else [], Matching(rows[1..], criteria))
  }

  // ---- the ledger object --------------------------------------------------------

  class Ledger {
    const digest: Hash
    var text: string

    constructor (digest: Hash, text: string)
      ensures this.digest == digest && this.text == text
    {
      this.digest := digest;
      this.text := text;
    }

    method Entries() returns (r: Result<seq<Value>>)
      ensures r == EntriesOf(text)
    {
      var lines := Lines(text);
      var rows: seq<Value> := [];
      assert lines[0..] == lines;
      PrefixedNone(RowsOf(lines));
      for i := 0 to |lines|
        invariant RowsOf(lines) == Prefixed(rows, RowsOf(lines[i..]))
      {
        assert lines[i..][0] == lines[i] && lines[i..][1..] == lines[i + 1..];
        var line := Text.Strip(lines[i]);
        if |line| != 0 {
          var row := Loads(line);
          if row.Err? {
            return Err(row.reason);
          }
          PrefixedTwice(rows, [row.value], RowsOf(lines[i + 1..]));
          rows := rows + [row.value];
        }
      }
      assert rows + [] == rows;
      return Ok(rows);
    }

    method Head() returns (r: Result<Value>)
      ensures r == if EntriesOf(text).Ok? then HeadOf(EntriesOf(text).value) else Err(EntriesOf(text).reason)
    {
      var rows :- Entries();
      r := HeadOf(rows);
    }

    /** On success exactly one line is added; when reading raises, nothing is written. */
    method Append(payload: seq<Field>, now: PyString) returns (r: Result<seq<Field>>)
      modifies this
      ensures r == if EntriesOf(old(text)).Ok? then EntryFor(digest, payload, EntriesOf(old(text)).value, now)
                   else Err(EntriesOf(old(text)).reason)
      ensures text == if r.Ok? then old(text) + LineOf(r.value) else old(text)
    {
      var rows :- Entries();
      var head :- HeadOf(rows);
      var entry := Put(payload, SEQ, Int(|rows| + 1));
      entry := Put(entry, PREV, head);
      entry := Put(entry, APPENDED, Str(now));
      entry := Put(entry, ENTRY_SHA, DigestOf(digest, Obj(entry)));
      text := text + LineOf(entry);
      return Ok(entry);
    }

    method Verify() returns (r: Result<seq<Problem>>)
      ensures r == if EntriesOf(text).Ok? then ProblemsFrom(digest, EntriesOf(text).value, Str(GENESIS))
                   else Err(EntriesOf(text).reason)
    {
      var rows :- Entries();
      var problems: seq<Problem> := [];
      var previous := Str(GENESIS);
      assert rows[0..] == rows;
      PrefixedNone(ProblemsFrom(digest, rows, previous));
      for i := 0 to |rows|
        invariant ProblemsFrom(digest, rows, Str(GENESIS))
          == Prefixed(problems, ProblemsFrom(digest, rows[i..], previous))
      {
        ProblemsStep(digest, rows, i, problems, previous);
        if !rows[i].Obj? {
          return Err("AttributeError");
        }
        var row := rows[i].fields;
        ghost var before := problems;
        if !DigestMatches(digest, row) {
          problems := problems + [DigestMismatch(Get(row, SEQ))];
        }
        if !LinksTo(row, previous) {
          problems := problems + [BrokenLink(Get(row, SEQ))];
        }
        assert problems == before + RowProblems(digest, row, previous);
        previous := LinkAfter(row);
      }
      assert problems + [] == problems;
      return Ok(problems);
    }

    method Find(criteria: seq<Field>) returns (r: Result<seq<Value>>)
      ensures r == if EntriesOf(text).Ok? then Matching(EntriesOf(text).value, criteria)
                   else Err(EntriesOf(text).reason)
    {
      var rows :- Entries();
      r := Matching(rows, criteria);
    }
  }
}
