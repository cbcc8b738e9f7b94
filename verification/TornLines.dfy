/** The ledger after a write that stored only the beginning of its line. */
module TornLines {
  import opened Outcomes
  import opened Json
  import opened JsonRoundTrip
  import opened JsonPrefix
  import opened Ledgers
  import opened LedgerFile
  import Text

  lemma {:induction false} StripRightCuts(s: string) returns (n: nat)
    requires |s| > 0 && !Text.IsSpace(s[0])
    ensures 0 < n <= |s| && Text.StripRight(s) == s[..n]
  {
    n := |s|;
    if Text.IsSpace(s[|s| - 1]) {
      n := StripRightCuts(s[..|s| - 1]);
      assert s[..|s| - 1][..n] == s[..n];
    }
  }

  lemma {:induction false} WholeLine(line: string)
    requires Printable(line)
    ensures LineLength(line) == |line|
  {
    if |line| > 0 {
      WholeLine(line[1..]);
    }
  }

  /** A last line without its line break. */
  lemma {:induction false} LinesWithoutEnd(text: string, line: string)
    requires Terminated(text) && |line| > 0 && Printable(line)
    ensures Lines(text + line) == Lines(text) + [line]
    decreases |text|
  {
    if |text| == 0 {
      assert text + line == line;
      WholeLine(line);
    } else {
      LinesOfMore(text, line);
      LinesWithoutEnd(text[LineLength(text) + 1..], line);
    }
  }

  /** One unreadable line makes the whole ledger unreadable. */
  lemma BadLine(lines: seq<string>, line: string)
    requires RowsOf(lines).Ok? && |Text.Strip(line)| > 0 && Loads(Text.Strip(line)).Err?
    ensures RowsOf(lines + [line]).Err?
  {
    RowsAppend(lines, line);
    assert RowsOf([line]).Err?;
  }

  lemma CutLineIsBad(entry: seq<Field>, k: nat)
    requires 0 < k < |Canonical(Obj(entry))|
    ensures var cut := Text.Strip(Canonical(Obj(entry))[..k]); |cut| > 0 && Loads(cut).Err?
  {
    var line, v := Canonical(Obj(entry)), SortedForm(Obj(entry));
    assert line == Render(v) && line[0] == '{' && line[..k][0] == '{';
    var n := StripRightCuts(line[..k]);
    assert line[..k][..n] == line[..n];
    CutObjectIsNoValue(v.fields, n);
  }

  /**
   A write that stops after `k` characters of the line: the ledger reads as
   before when nothing was written, as if all had been written when only the line
   break is missing, and in every other case not at all.
   */
  lemma TornWrite(text: string, entry: seq<Field>, k: nat)
    requires Terminated(text) && EntriesOf(text).Ok? && k <= |LineOf(entry)|
    ensures k == 0 ==> EntriesOf(text + LineOf(entry)[..k]) == EntriesOf(text)
    ensures 0 < k < |LineOf(entry)| - 1 ==> EntriesOf(text + LineOf(entry)[..k]).Err?
    ensures k >= |LineOf(entry)| - 1 ==> EntriesOf(text + LineOf(entry)[..k]) == EntriesOf(text + LineOf(entry))
  {
    var line := Canonical(Obj(entry));
    EntryIsOneLine(entry);
    if k == 0 {
      assert text + LineOf(entry)[..k] == text;
    } else if k <= |line| {
      assert LineOf(entry)[..k] == line[..k];
      LinesWithoutEnd(text, line[..k]);
      if k < |line| {
        CutLineIsBad(entry, k);
        BadLine(Lines(text), line[..k]);
      } else {
        assert line[..k] == line;
        LinesAppend(text, line);
      }
    } else {
      assert LineOf(entry)[..k] == LineOf(entry);
    }
  }

  lemma Unstripped(s: string)
    requires |s| > 0 && !Text.IsSpace(s[0]) && !Text.IsSpace(s[|s| - 1])
    ensures Text.Strip(s) == s
  {
  }

  lemma MoreBehind(s: string, v: Value, rest: string)
    requires SkipSpace(s) == s && ParseValue(s) == Ok(Parsed(v, rest)) && SkipSpace(rest) != ""
    ensures Loads(s).Err?
  {
  }

  lemma TwoOnALine(v: Value, more: string)
    requires v.Obj? && |more| > 0 && more[0] == '{' && more[|more| - 1] == '}'
    ensures Text.Strip(Render(v) + more) == Render(v) + more && Loads(Render(v) + more).Err?
  {
    var s := Render(v) + more;
    assert s[0] == '{' && s[|s| - 1] == '}';
    Unstripped(s);
    ValueRoundTrip(v, more);
    MoreBehind(s, Joined(v), more);
  }

  lemma JoinedLine(text: string, a: string, b: string)
    requires Terminated(text) && EntriesOf(text).Ok? && Printable(a + b) && |a + b| > 0
    requires Text.Strip(a + b) == a + b && Loads(a + b).Err?
    ensures EntriesOf(text + a + (b + "\n")).Err?
  {
    LinesAppend(text, a + b);
    BadLine(Lines(text), a + b);
    assert text + a + (b + "\n") == text + ((a + b) + "\n");
  }

  lemma MissingBreak(text: string, entry: seq<Field>)
    requires Terminated(text) && EntriesOf(text).Ok?
    ensures EntriesOf(text + Canonical(Obj(entry))).Ok?
  {
    var line := Canonical(Obj(entry));
    TornWrite(text, entry, |line|);
    FileAfterAppend(text, entry);
    assert LineOf(entry)[..|line|] == line;
  }

  /**
   When only the line break is missing, the next append still succeeds, puts its
   entry on the same line, and leaves a ledger that cannot be read.
   */
  lemma AppendAfterMissingBreak(text: string, entry: seq<Field>, next: seq<Field>)
    requires Terminated(text) && EntriesOf(text).Ok?
    ensures EntriesOf(text + Canonical(Obj(entry))).Ok?
    ensures EntriesOf(text + Canonical(Obj(entry)) + LineOf(next)).Err?
  {
    var a, b := Canonical(Obj(entry)), Canonical(Obj(next));
    MissingBreak(text, entry);
    EntryIsOneLine(entry);
    EntryIsOneLine(next);
    assert b[0] == '{' && b[|b| - 1] == '}';
    TwoOnALine(SortedForm(Obj(entry)), b);
    PrintableBoth(a, b);
    JoinedLine(text, a, b);
  }
}
