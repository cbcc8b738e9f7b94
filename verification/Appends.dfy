/**
 Overlapping appends.  `append` reads the ledger, builds its entry and only then
 writes one line; nothing holds the file in between.  Each append is a Read step
 and a later Write step, in any interleaving with other appends.
 */
module Appends {
  import opened Outcomes
  import opened Json
  import opened JsonCanonical
  import opened JsonParsed
  import opened Dicts
  import opened Ledgers
  import opened LedgerFile
  import opened Chain

  datatype Step = Read(id: nat, payload: seq<Field>, now: PyString) | Write(id: nat)

  /** An entry built by a reader and not written yet; `at` is the position of its Read. */
  datatype Held = Held(entry: seq<Field>, at: nat)

  datatype State = State(text: string, held: map<nat, Held>, used: set<nat>)

  /** One step of one append call; `n` is the step's position.  None: no such step is possible. */
  function Next(h: Hash, st: State, step: Step, n: nat): Option<State> {
    match step
    case Read(id, payload, now) =>
      if id in st.used || EntriesOf(st.text).Err? then None
      else
        (match EntryFor(h, payload, EntriesOf(st.text).value, now)
         case Ok(entry) => Some(st.(held := st.held[id := Held(entry, n)], used := st.used + {id}))
         case Err(_) => None)
    case Write(id) =>
      if id !in st.held then None
      else Some(st.(text := st.text + LineOf(st.held[id].entry), held := st.held - {id}))
  }

  function Run(h: Hash, text: string, steps: seq<Step>): Option<State> {
    if |steps| == 0 then Some(State(text, map[], {}))
    else
      var n := |steps| - 1;
      match Run(h, text, steps[..n])
      case Some(st) => Next(h, st, steps[n], n)
      case None => None
  }

  /** An append that nothing interrupts leaves what `append` leaves, and one that raises takes no step. */
  lemma AppendAlone(h: Hash, text: string, payload: seq<Field>, now: PyString)
    ensures var rows := EntriesOf(text);
      if rows.Ok? && EntryFor(h, payload, rows.value, now).Ok? then
        && Run(h, text, [Read(0, payload, now), Write(0)]).Some?
        && Run(h, text, [Read(0, payload, now), Write(0)]).value.text
             == text + LineOf(EntryFor(h, payload, rows.value, now).value)
      else Run(h, text, [Read(0, payload, now)]).None?
  {
    var steps := [Read(0, payload, now), Write(0)];
    assert steps[..1] == [steps[0]] && steps[..1][..0] == [];
    assert Run(h, text, steps[..1]) == Next(h, State(text, map[], {}), steps[0], 0);
  }

  lemma RunMore(h: Hash, text: string, steps: seq<Step>, step: Step)
    ensures Run(h, text, steps + [step]) ==
      if Run(h, text, steps).Some? then Next(h, Run(h, text, steps).value, step, |steps|) else None
  {
    assert (steps + [step])[..|steps|] == steps;
  }

  lemma OneWrite(h: Hash, st: State, id: nat, entry: seq<Field>, n: nat)
    requires id in st.held && st.held[id].entry == entry
    ensures Next(h, st, Write(id), n) == Some(State(st.text + LineOf(entry), st.held - {id}, st.used))
  {
  }

  lemma OneRead(h: Hash, st: State, id: nat, payload: seq<Field>, now: PyString, n: nat, entry: seq<Field>)
    requires id !in st.used && EntriesOf(st.text).Ok?
    requires EntryFor(h, payload, EntriesOf(st.text).value, now) == Ok(entry)
    ensures Next(h, st, Read(id, payload, now), n)
         == Some(State(st.text, st.held[id := Held(entry, n)], st.used + {id}))
  {
  }

  lemma TwoReads(h: Hash, text: string, one: seq<Field>, two: seq<Field>, now: PyString, a: seq<Field>, b: seq<Field>)
    requires EntriesOf(text).Ok? && EntryFor(h, one, EntriesOf(text).value, now) == Ok(a)
    requires EntryFor(h, two, EntriesOf(text).value, now) == Ok(b)
    ensures Run(h, text, [Read(0, one, now)] + [Read(1, two, now)])
         == Some(State(text, map[0 := Held(a, 0), 1 := Held(b, 1)], {0, 1}))
  {
    var empty := State(text, map[], {});
    var first := State(text, empty.held[0 := Held(a, 0)], empty.used + {0});
    RunMore(h, text, [], Read(0, one, now));
    assert [] + [Read(0, one, now)] == [Read(0, one, now)];
    OneRead(h, empty, 0, one, now, 0, a);
    RunMore(h, text, [Read(0, one, now)], Read(1, two, now));
    OneRead(h, first, 1, two, now, 1, b);
    assert first.held[1 := Held(b, 1)] == map[0 := Held(a, 0), 1 := Held(b, 1)] && first.used + {1} == {0, 1};
  }

  lemma TwoWrites(h: Hash, text: string, begun: seq<Step>, a: seq<Field>, b: seq<Field>)
    requires Run(h, text, begun) == Some(State(text, map[0 := Held(a, 0), 1 := Held(b, 1)], {0, 1}))
    ensures var st := Run(h, text, begun + [Write(0)] + [Write(1)]);
      st.Some? && st.value.text == text + LineOf(a) + LineOf(b)
  {
    RunMore(h, text, begun, Write(0));
    RunMore(h, text, begun + [Write(0)], Write(1));
    var both := State(text, map[0 := Held(a, 0), 1 := Held(b, 1)], {0, 1});
    OneWrite(h, both, 0, a, |begun|);
    OneWrite(h, State(text + LineOf(a), both.held - {0}, {0, 1}), 1, b, |begun| + 1);
  }

  /** Two appends may both read before either writes, and then both lines are built over the same rows. */
  lemma AppendsOverlap(h: Hash, text: string, one: seq<Field>, two: seq<Field>, now: PyString)
    requires EntriesOf(text).Ok? && HeadOf(EntriesOf(text).value).Ok?
    ensures var rows := EntriesOf(text).value;
            var st := Run(h, text, [Read(0, one, now)] + [Read(1, two, now)] + [Write(0)] + [Write(1)]);
      st.Some? && st.value.text
        == text + LineOf(EntryFor(h, one, rows, now).value) + LineOf(EntryFor(h, two, rows, now).value)
  {
    var rows := EntriesOf(text).value;
    var a, b := EntryFor(h, one, rows, now).value, EntryFor(h, two, rows, now).value;
    TwoReads(h, text, one, two, now, a, b);
    TwoWrites(h, text, [Read(0, one, now)] + [Read(1, two, now)], a, b);
  }

  /** No write falls between any append's read and its own write. */
  predicate Undisturbed(steps: seq<Step>) {
    forall r, k, w :: 0 <= r < k < w < |steps| && steps[r].Read? && steps[w] == Write(steps[r].id) ==> steps[k].Read?
  }

  /** Payloads are plain dictionaries that leave the digest's key to the ledger. */
  predicate GoodPayloads(steps: seq<Step>) {
    forall i :: 0 <= i < |steps| && steps[i].Read? ==>
      Plain(Obj(steps[i].payload)) && !Has(steps[i].payload, ENTRY_SHA) && NoSplit(steps[i].now)
  }

  function Writes(steps: seq<Step>): nat {
    if |steps| == 0 then 0
    else Writes(steps[..|steps| - 1]) + if steps[|steps| - 1].Write? then 1 else 0
  }

  lemma {:induction false} WritesBetween(steps: seq<Step>, n: nat)
    requires n <= |steps|
    ensures Writes(steps[..n]) <= Writes(steps)
    ensures Writes(steps[..n]) == Writes(steps) <==> forall k :: n <= k < |steps| ==> steps[k].Read?
  {
    if n < |steps| {
      var m := |steps| - 1;
      assert steps[..m][..n] == steps[..n];
      WritesBetween(steps[..m], n);
      assert (forall k :: n <= k < |steps| ==> steps[k].Read?)
        <==> (forall k :: n <= k < m ==> steps[..m][k].Read?) && steps[m].Read?;
    } else {
      assert steps[..n] == steps;
    }
  }

  // ---- one written row ------------------------------------------------------------------

  /** The head can be read and is a digest, whether or not the chain is clean. */
  predicate HeadReadable(rows: seq<Value>) {
    HeadOf(rows).Ok? && HeadOf(rows).value.Str? && Plain(HeadOf(rows).value)
  }

  /** What the row of an entry built over `seen` holds. */
  lemma WrittenRow(h: Hash, seen: seq<Value>, payload: seq<Field>, now: PyString)
    requires HeadReadable(seen)
    requires Plain(Obj(payload)) && !Has(payload, ENTRY_SHA) && NoSplit(now)
    ensures EntryFor(h, payload, seen, now).Ok?
    ensures var entry := EntryFor(h, payload, seen, now).value; var row := RowOf(entry);
      && Plain(Obj(entry)) && row.Obj? && Plain(row)
      && Get(row.fields, PREV) == Some(HeadOf(seen).value)
      && DigestMatches(h, row.fields)
      && Get(row.fields, ENTRY_SHA).Some? && Get(row.fields, ENTRY_SHA).value.Str?
  {
    var body := Chained(payload, |seen|, HeadOf(seen).value, now);
    ChainedFields(payload, |seen|, HeadOf(seen).value, now);
    SealedRow(h, body);
    WithoutAbsent(body, ENTRY_SHA);
  }

  /** The head a row was built over is the head it must link to only if nothing was written since. */
  lemma LateHead(h: Hash, rows: seq<Value>, m: nat)
    requires m <= |rows| && Clean(h, rows) && AllPlain(rows) && NoBreach(h, rows)
    ensures HeadOf(rows[..m]).Ok?
    ensures SameValue(HeadOf(rows[..m]).value, Link(rows)) <==> m == |rows|
  {
    CleanPrefix(h, rows, m);
    HeadIsLink(h, rows);
    HeadIsLink(h, rows[..m]);
    assert rows[..|rows|] == rows;
    if m < |rows| {
      HeadsDiffer(h, rows, m, |rows|);
    }
  }

  /** A row built over a prefix of a clean chain keeps it clean only if that prefix was all of it. */
  lemma LateRow(h: Hash, rows: seq<Value>, m: nat, row: Value)
    requires m <= |rows| && AllPlain(rows) && NoBreach(h, rows) && HeadReadable(rows[..m])
    requires row.Obj? && DigestMatches(h, row.fields)
    requires Get(row.fields, PREV) == Some(HeadOf(rows[..m]).value)
    ensures Clean(h, rows + [row]) <==> Clean(h, rows) && m == |rows|
  {
    CleanSnoc(h, rows, row);
    assert (rows + [row])[..|rows|] == rows;
    if Clean(h, rows) {
      LateHead(h, rows, m);
    }
  }

  lemma LastRowReadable(h: Hash, rows: seq<Value>, row: Value)
    requires row.Obj? && Plain(row)
    requires Get(row.fields, ENTRY_SHA).Some? && Get(row.fields, ENTRY_SHA).value.Str?
    ensures HeadReadable(rows + [row])
  {
    PlainElements(row.fields);
    HasIffElement(row.fields, ENTRY_SHA);
  }

  // ---- the invariant -----------------------------------------------------------------------

  predicate Good(st: State) {
    Terminated(st.text) && EntriesOf(st.text).Ok? && AllPlain(EntriesOf(st.text).value)
    && HeadReadable(EntriesOf(st.text).value)
  }

  /** How many rows an append that read at position `at` saw. */
  function Seen(base: nat, steps: seq<Step>, at: nat): nat
    requires at <= |steps|
  {
    base + Writes(steps[..at])
  }

  /** The entry `id` holds is the one its Read built over the rows it saw. */
  predicate HeldRight(h: Hash, rows: seq<Value>, base: nat, steps: seq<Step>, id: nat, held: Held) {
    && held.at < |steps| && steps[held.at].Read? && steps[held.at].id == id
    && Seen(base, steps, held.at) <= |rows|
    && HeadReadable(rows[..Seen(base, steps, held.at)])
    && EntryFor(h, steps[held.at].payload, rows[..Seen(base, steps, held.at)], steps[held.at].now) == Ok(held.entry)
  }

  /** Ids in use are those of the Reads so far, each read once. */
  predicate ReadOnce(steps: seq<Step>, used: set<nat>) {
    && (forall i :: 0 <= i < |steps| && steps[i].Read? ==> steps[i].id in used)
    && (forall i, j :: 0 <= i < j < |steps| && steps[i].Read? && steps[j].Read? ==> steps[i].id != steps[j].id)
  }

  /** What holds of the rows, the entries held and the ids used after some steps. */
  predicate RowsInv(h: Hash, base: seq<Value>, steps: seq<Step>, rows: seq<Value>, held: map<nat, Held>,
          used: set<nat>)
  {
    && base <= rows && |rows| == |base| + Writes(steps)
    && ReadOnce(steps, used)
    && (forall id :: id in held ==> HeldRight(h, rows, |base|, steps, id, held[id]))
  }

  predicate Inv(h: Hash, base: seq<Value>, steps: seq<Step>, st: State) {
    Good(st) && RowsInv(h, base, steps, EntriesOf(st.text).value, st.held, st.used)
  }

  lemma HeldStays(h: Hash, rows: seq<Value>, more: seq<Value>, base: nat, steps: seq<Step>, step: Step, id: nat,
          held: Held)
    requires HeldRight(h, rows, base, steps, id, held) && rows <= more
    ensures HeldRight(h, more, base, steps + [step], id, held)
  {
    var all := steps + [step];
    assert all[..held.at] == steps[..held.at] && all[held.at] == steps[held.at];
    assert more[..Seen(base, all, held.at)] == rows[..Seen(base, steps, held.at)];
  }

  lemma ReadStep(h: Hash, base: seq<Value>, steps: seq<Step>, st: State, step: Step)
    requires Inv(h, base, steps, st) && step.Read? && Next(h, st, step, |steps|).Some?
    requires GoodPayloads(steps + [step])
    ensures Inv(h, base, steps + [step], Next(h, st, step, |steps|).value)
    ensures Undisturbed(steps + [step]) <==> Undisturbed(steps)
  {
    var all, st' := steps + [step], Next(h, st, step, |steps|).value;
    var rows := EntriesOf(st.text).value;
    assert all[..|steps|] == steps;
    assert rows[..|rows|] == rows;
    forall id | id in st'.held
      ensures HeldRight(h, rows, |base|, all, id, st'.held[id])
    {
      if id != step.id {
        HeldStays(h, rows, rows, |base|, steps, step, id, st.held[id]);
      } else {
        assert Seen(|base|, all, |steps|) == |rows|;
      }
    }
    UndisturbedRead(steps, step);
  }

  lemma UndisturbedRead(steps: seq<Step>, step: Step)
    requires step.Read?
    ensures Undisturbed(steps + [step]) <==> Undisturbed(steps)
  {
    var all := steps + [step];
    forall r, k, w | 0 <= r < k < w < |all| && all[r].Read? && all[w] == Write(all[r].id)
      ensures w < |steps| && all[r] == steps[r] && all[k] == steps[k] && all[w] == steps[w]
    {
    }
    if Undisturbed(all) {
      forall r, k, w | 0 <= r < k < w < |steps| && steps[r].Read? && steps[w] == Write(steps[r].id)
        ensures steps[k].Read?
      {
        assert all[r] == steps[r] && all[k] == steps[k] && all[w] == steps[w];
      }
    }
  }

  lemma UndisturbedWrite(steps: seq<Step>, used: set<nat>, at: nat)
    requires at < |steps| && steps[at].Read? && ReadOnce(steps, used)
    ensures Undisturbed(steps + [Write(steps[at].id)])
            <==> Undisturbed(steps) && Writes(steps[..at]) == Writes(steps)
  {
    var all, n := steps + [Write(steps[at].id)], |steps|;
    WritesBetween(steps, at);
    if Undisturbed(all) {
      forall r, k, w | 0 <= r < k < w < |steps| && steps[r].Read? && steps[w] == Write(steps[r].id)
        ensures steps[k].Read?
      {
        assert all[r] == steps[r] && all[k] == steps[k] && all[w] == steps[w];
      }
      forall k | at <= k < |steps|
        ensures steps[k].Read?
      {
        assert all[at] == steps[at] && all[k] == steps[k] && all[n] == Write(steps[at].id);
      }
    }
    if Undisturbed(steps) && forall k :: at <= k < |steps| ==> steps[k].Read? {
      forall r, k, w | 0 <= r < k < w < |all| && all[r].Read? && all[w] == Write(all[r].id)
        ensures all[k].Read?
      {
        assert all[r] == steps[r] && all[k] == steps[k];
        if w < n {
          assert all[w] == steps[w];
        }
      }
    }
  }

  /** The row a Write adds, and what the file reads as afterwards. */
  lemma WriteAddsRow(h: Hash, base: seq<Value>, steps: seq<Step>, st: State, id: nat)
    requires Inv(h, base, steps, st) && id in st.held && GoodPayloads(steps)
    ensures var row := RowOf(st.held[id].entry); var text := st.text + LineOf(st.held[id].entry);
      && Terminated(text) && EntriesOf(text) == Ok(EntriesOf(st.text).value + [row])
      && row.Obj? && Plain(row) && DigestMatches(h, row.fields)
      && Get(row.fields, PREV) == Some(HeadOf(EntriesOf(st.text).value[..Seen(|base|, steps, st.held[id].at)]).value)
      && HeadReadable(EntriesOf(st.text).value + [row])
  {
    var rows, held := EntriesOf(st.text).value, st.held[id];
    assert HeldRight(h, rows, |base|, steps, id, held);
    var read := steps[held.at];
    WrittenRow(h, rows[..Seen(|base|, steps, held.at)], read.payload, read.now);
    FileRoundTrip(st.text, held.entry);
    LastRowReadable(h, rows, RowOf(held.entry));
  }

  lemma RowsInvWrite(h: Hash, base: seq<Value>, steps: seq<Step>, rows: seq<Value>, held: map<nat, Held>,
          used: set<nat>,
                     row: Value, id: nat)
    requires RowsInv(h, base, steps, rows, held, used)
    ensures RowsInv(h, base, steps + [Write(id)], rows + [row], held - {id}, used)
  {
    assert (steps + [Write(id)])[..|steps|] == steps;
    forall other | other in held && other != id
      ensures HeldRight(h, rows + [row], |base|, steps + [Write(id)], other, held[other])
    {
      HeldStays(h, rows, rows + [row], |base|, steps, Write(id), other, held[other]);
    }
  }

  lemma AllPlainSnoc(rows: seq<Value>, row: Value)
    requires AllPlain(rows) && Plain(row)
    ensures AllPlain(rows + [row])
  {
  }

  lemma GoodAfterWrite(h: Hash, base: seq<Value>, steps: seq<Step>, st: State, id: nat)
    requires Inv(h, base, steps, st) && id in st.held && GoodPayloads(steps)
    ensures Good(Next(h, st, Write(id), |steps|).value)
  {
    var row, st' := RowOf(st.held[id].entry), Next(h, st, Write(id), |steps|).value;
    WriteAddsRow(h, base, steps, st, id);
    AllPlainSnoc(EntriesOf(st.text).value, row);
    assert EntriesOf(st'.text) == Ok(EntriesOf(st.text).value + [row]);
  }

  lemma WriteStep(h: Hash, base: seq<Value>, steps: seq<Step>, st: State, id: nat)
    requires Inv(h, base, steps, st) && id in st.held && GoodPayloads(steps)
    ensures Inv(h, base, steps + [Write(id)], Next(h, st, Write(id), |steps|).value)
  {
    GoodAfterWrite(h, base, steps, st, id);
    WriteAddsRow(h, base, steps, st, id);
    RowsInvWrite(h, base, steps, EntriesOf(st.text).value, st.held, st.used, RowOf(st.held[id].entry), id);
  }

  lemma WriteVerdict(h: Hash, base: seq<Value>, steps: seq<Step>, st: State, id: nat)
    requires Inv(h, base, steps, st) && id in st.held && GoodPayloads(steps)
    requires NoBreach(h, EntriesOf(st.text).value)
    requires Clean(h, EntriesOf(st.text).value) <==> Undisturbed(steps)
    ensures Clean(h, EntriesOf(st.text).value + [RowOf(st.held[id].entry)]) <==> Undisturbed(steps + [Write(id)])
  {
    var rows, held := EntriesOf(st.text).value, st.held[id];
    assert HeldRight(h, rows, |base|, steps, id, held);
    WriteAddsRow(h, base, steps, st, id);
    LateRow(h, rows, Seen(|base|, steps, held.at), RowOf(held.entry));
    UndisturbedWrite(steps, st.used, held.at);
  }

  lemma CleanIsReadable(h: Hash, rows: seq<Value>)
    requires Clean(h, rows)
    ensures HeadReadable(rows)
  {
    HeadIsLink(h, rows);
    HeadPlain(h, rows);
  }

  lemma Start(h: Hash, text: string)
    requires Terminated(text) && EntriesOf(text).Ok? && Clean(h, EntriesOf(text).value)
    ensures Inv(h, EntriesOf(text).value, [], State(text, map[], {}))
  {
    EntriesArePlain(text);
    CleanIsReadable(h, EntriesOf(text).value);
  }

  lemma StepKeepsInv(h: Hash, base: seq<Value>, steps: seq<Step>, st: State, step: Step)
    requires Inv(h, base, steps, st) && GoodPayloads(steps + [step])
    requires Next(h, st, step, |steps|).Some?
    ensures Inv(h, base, steps + [step], Next(h, st, step, |steps|).value)
  {
    match step
    case Read(_, _, _) => ReadStep(h, base, steps, st, step);
    case Write(id) =>
      assert forall i :: 0 <= i < |steps| ==> (steps + [step])[i] == steps[i];
      WriteStep(h, base, steps, st, id);
  }

  lemma GoodBefore(steps: seq<Step>, n: nat)
    requires GoodPayloads(steps) && n <= |steps|
    ensures GoodPayloads(steps[..n])
  {
    forall i | 0 <= i < n && steps[..n][i].Read?
      ensures Plain(Obj(steps[..n][i].payload)) && !Has(steps[..n][i].payload, ENTRY_SHA) && NoSplit(steps[..n][i].now)
    {
      assert steps[..n][i] == steps[i];
    }
  }

  lemma {:induction false} InvAlways(h: Hash, text: string, steps: seq<Step>)
    requires Terminated(text) && EntriesOf(text).Ok? && Clean(h, EntriesOf(text).value)
    requires GoodPayloads(steps) && Run(h, text, steps).Some?
    ensures Inv(h, EntriesOf(text).value, steps, Run(h, text, steps).value)
  {
    if |steps| == 0 {
      Start(h, text);
    } else {
      var init, last := steps[..|steps| - 1], steps[|steps| - 1];
      assert steps == init + [last];
      GoodBefore(steps, |steps| - 1);
      InvAlways(h, text, init);
      StepKeepsInv(h, EntriesOf(text).value, init, Run(h, text, init).value, last);
    }
  }

  /** The rows in the file after a run. */
  function RowsAfter(h: Hash, text: string, steps: seq<Step>): Result<seq<Value>>
    requires Run(h, text, steps).Some?
  {
    EntriesOf(Run(h, text, steps).value.text)
  }

  /** A step only adds rows, and the verdict goes on following the interleaving. */
  lemma StepVerdict(h: Hash, base: seq<Value>, steps: seq<Step>, st: State, step: Step)
    requires Inv(h, base, steps, st) && GoodPayloads(steps + [step])
    requires Next(h, st, step, |steps|).Some?
    ensures var rows, after := EntriesOf(st.text).value, EntriesOf(Next(h, st, step, |steps|).value.text);
      && after.Ok? && rows <= after.value
      && (NoBreach(h, rows) && (Clean(h, rows) <==> Undisturbed(steps))
          ==> (Clean(h, after.value) <==> Undisturbed(steps + [step])))
  {
    match step
    case Read(_, _, _) => UndisturbedRead(steps, step);
    case Write(id) =>
      assert forall i :: 0 <= i < |steps| ==> (steps + [step])[i] == steps[i];
      WriteAddsRow(h, base, steps, st, id);
      if NoBreach(h, EntriesOf(st.text).value) && (Clean(h, EntriesOf(st.text).value) <==> Undisturbed(steps)) {
        WriteVerdict(h, base, steps, st, id);
      }
  }

  lemma NoBreachShrinks(h: Hash, rows: seq<Value>, more: seq<Value>)
    requires rows <= more
    ensures NoBreach(h, more) ==> NoBreach(h, rows)
  {
    if NoBreach(h, more) {
      NoBreachPrefix(h, more, more, |rows|, |rows|);
      assert more[..|rows|] == rows;
    }
  }

  lemma RowsAreThere(h: Hash, text: string, steps: seq<Step>)
    requires Terminated(text) && EntriesOf(text).Ok? && Clean(h, EntriesOf(text).value)
    requires GoodPayloads(steps) && Run(h, text, steps).Some?
    ensures RowsAfter(h, text, steps).Ok?
  {
    InvAlways(h, text, steps);
  }

  lemma StepKeepsVerdict(h: Hash, text: string, steps: seq<Step>, step: Step)
    requires Terminated(text) && EntriesOf(text).Ok? && Clean(h, EntriesOf(text).value)
    requires GoodPayloads(steps) && GoodPayloads(steps + [step]) && Run(h, text, steps).Some?
    requires Next(h, Run(h, text, steps).value, step, |steps|).Some?
    requires var after := EntriesOf(Next(h, Run(h, text, steps).value, step, |steps|).value.text);
      after.Ok? && NoBreach(h, after.value)
    requires RowsAfter(h, text, steps).Ok?
    requires NoBreach(h, RowsAfter(h, text, steps).value)
      ==> (Clean(h, RowsAfter(h, text, steps).value) <==> Undisturbed(steps))
    ensures Clean(h, EntriesOf(Next(h, Run(h, text, steps).value, step, |steps|).value.text).value)
      <==> Undisturbed(steps + [step])
  {
    var st := Run(h, text, steps).value;
    InvAlways(h, text, steps);
    StepVerdict(h, EntriesOf(text).value, steps, st, step);
    NoBreachShrinks(h, EntriesOf(st.text).value, EntriesOf(Next(h, st, step, |steps|).value.text).value);
  }

  /** The last step of a run. */
  lemma LastStep(h: Hash, text: string, steps: seq<Step>)
    requires |steps| > 0 && GoodPayloads(steps) && Run(h, text, steps).Some?
    ensures var n := |steps| - 1;
      && GoodPayloads(steps[..n]) && steps[..n] + [steps[n]] == steps && Run(h, text, steps[..n]).Some?
      && Next(h, Run(h, text, steps[..n]).value, steps[n], n) == Run(h, text, steps)
  {
    GoodBefore(steps, |steps| - 1);
  }

  lemma {:induction false} VerdictAlways(h: Hash, text: string, steps: seq<Step>)
    requires Terminated(text) && EntriesOf(text).Ok? && Clean(h, EntriesOf(text).value)
    requires GoodPayloads(steps) && Run(h, text, steps).Some?
    requires RowsAfter(h, text, steps).Ok? && NoBreach(h, RowsAfter(h, text, steps).value)
    ensures Clean(h, RowsAfter(h, text, steps).value) <==> Undisturbed(steps)
  {
    if |steps| > 0 {
      var init, last := steps[..|steps| - 1], steps[|steps| - 1];
      LastStep(h, text, steps);
      RowsAreThere(h, text, init);
      if NoBreach(h, RowsAfter(h, text, init).value) {
        VerdictAlways(h, text, init);
      }
      StepKeepsVerdict(h, text, init, last);
    }
  }

  // ---- main results -----------------------------------------------------------------------

  /**
   Over every interleaving of appends to a clean ledger: the rows that were there
   stay as they were, and `verify()` is empty exactly when no write fell between
   any append's read and its write.
   */
  lemma InterleavedAppends(h: Hash, text: string, steps: seq<Step>)
    requires Terminated(text) && EntriesOf(text).Ok? && Clean(h, EntriesOf(text).value)
    requires GoodPayloads(steps) && Run(h, text, steps).Some?
    ensures RowsAfter(h, text, steps).Ok?
    ensures EntriesOf(text).value <= RowsAfter(h, text, steps).value
    ensures |RowsAfter(h, text, steps).value| == |EntriesOf(text).value| + Writes(steps)
    ensures NoBreach(h, RowsAfter(h, text, steps).value)
            ==> (Clean(h, RowsAfter(h, text, steps).value) <==> Undisturbed(steps))
  {
    InvAlways(h, text, steps);
    if NoBreach(h, RowsAfter(h, text, steps).value) {
      VerdictAlways(h, text, steps);
    }
  }

  /** Rows are never rewritten, and a chain that stopped verifying never verifies again. */
  lemma {:induction false} BrokenStaysBroken(h: Hash, text: string, steps: seq<Step>, n: nat)
    requires Terminated(text) && EntriesOf(text).Ok? && Clean(h, EntriesOf(text).value)
    requires GoodPayloads(steps) && Run(h, text, steps).Some? && n <= |steps|
    ensures Run(h, text, steps[..n]).Some?
    ensures var early, late := RowsAfter(h, text, steps[..n]), RowsAfter(h, text, steps);
      early.Ok? && late.Ok? && early.value <= late.value && (!Clean(h, early.value) ==> !Clean(h, late.value))
  {
    if n == |steps| {
      assert steps[..n] == steps;
      InvAlways(h, text, steps);
    } else {
      var init, last := steps[..|steps| - 1], steps[|steps| - 1];
      assert steps == init + [last] && init[..n] == steps[..n];
      GoodBefore(steps, |steps| - 1);
      InvAlways(h, text, init);
      StepVerdict(h, EntriesOf(text).value, init, Run(h, text, init).value, last);
      BrokenStaysBroken(h, text, init, n);
      PrefixBroken(h, RowsAfter(h, text, init).value, RowsAfter(h, text, steps).value);
    }
  }

  lemma PrefixBroken(h: Hash, early: seq<Value>, late: seq<Value>)
    requires early <= late
    ensures !Clean(h, early) ==> !Clean(h, late)
  {
    assert late[..|early|] == early;
    if Clean(h, late) {
      CleanPrefix(h, late, |early|);
    }
  }
}
