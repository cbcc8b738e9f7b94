/** The ledger as a file: what `entries()` reads after a line was appended. */
module LedgerFile {
  import opened Outcomes
  import opened Json
  import opened JsonRoundTrip
  import opened JsonCanonical
  import opened JsonParsed
  import opened Ledgers
  import Text

  /** Printable ASCII: neither a line break nor a control character. */
  predicate Printable(s: string) {
    forall i :: 0 <= i < |s| ==> ' ' <= s[i] <= '~'
  }

  lemma {:induction false} DigitsPrintable(n: nat)
    ensures Printable(Digits(n))
  {
    if n >= 10 {
      DigitsPrintable(n / 10);
    }
  }

  lemma PrintableBoth(a: string, b: string)
    requires Printable(a) && Printable(b)
    ensures Printable(a + b)
  {
  }

  lemma TailPrintable(s: string)
    ensures Printable(s[..TailLength(s)])
  {
    var f := FractionLength(s);
    var x := s[f..][..ExponentLength(s[f..])];
    FractionPrintable(s);
    ExponentPrintable(s[f..]);
    PrintableBoth(s[..f], x);
    assert s[..TailLength(s)] == s[..f] + x;
  }

  lemma TokenPrintable(s: string)
    requires IsFloatToken(s)
    ensures Printable(s)
  {
    var n := IntLength(s);
    IntPrintable(s);
    TailPrintable(s[n..]);
    assert s[n..][..TailLength(s[n..])] == s[n..];
    PrintableBoth(s[..n], s[n..]);
    assert s[..n] + s[n..] == s;
  }

  lemma IntPrintable(s: string)
    ensures Printable(s[..IntLength(s)])
  {
    if IntLength(s) > 0 {
      DigitPrefixDigits(s[if s[0] == '-' then 1 else 0..]);
    }
  }

  lemma FractionPrintable(s: string)
    ensures Printable(s[..FractionLength(s)])
  {
    if FractionLength(s) > 0 {
      DigitPrefixDigits(s[1..]);
    }
  }

  lemma ExponentPrintable(s: string)
    ensures Printable(s[..ExponentLength(s)])
  {
    if ExponentLength(s) > 0 {
      DigitPrefixDigits(s[if |s| > 1 && (s[1] == '+' || s[1] == '-') then 2 else 1..]);
    }
  }

  lemma HexPrintable(n: int)
    requires 0 <= n < 0x1_0000
    ensures Printable(UnicodeEscape(n))
  {
  }

  lemma EscapeOnePrintable(c: CodePoint)
    ensures Printable(EscapeOne(c))
  {
    if c >= 0x1_0000 {
      HexPrintable(HighHalf(c));
      HexPrintable(LowHalf(c));
    } else if !Short(c) {
      HexPrintable(c);
    }
  }

  lemma {:induction false} EscapePrintable(s: PyString)
    ensures Printable(Escape(s))
  {
    if |s| > 0 {
      EscapePrintable(s[1..]);
      EscapeOnePrintable(s[0]);
    }
  }

  lemma FloatPrintable(v: Value)
    requires v.Float?
    ensures Printable(Render(v))
  {
    TokenPrintable(v.token);
  }

  lemma {:induction false} RenderPrintable(v: Value)
    ensures Printable(Render(v))
    decreases v, 0
  {
    match v
    case Int(n) => DigitsPrintable(if n < 0 then -n else n);
    case Float(_) => FloatPrintable(v);
    case Str(s) => EscapePrintable(s);
    case Arr(items) =>
      if |items| > 0 {
        ItemsPrintable(items);
      }
    case Obj(fields) =>
      if |fields| > 0 {
        FieldsPrintable(fields);
      }
    case _ =>
  }

  lemma {:induction false} ItemsPrintable(items: seq<Value>)
    requires |items| > 0
    ensures Printable(RenderItems(items))
    decreases items, 0
  {
    RenderPrintable(items[0]);
    if |items| > 1 {
      ItemsPrintable(items[1..]);
    }
  }

  lemma {:induction false} FieldsPrintable(fields: seq<Field>)
    requires |fields| > 0
    ensures Printable(RenderFields(fields))
    decreases fields, 0
  {
    EscapePrintable(fields[0].key);
    RenderPrintable(fields[0].value);
    assert Printable(RenderField(fields[0]));
    if |fields| > 1 {
      FieldsPrintable(fields[1..]);
    }
  }

  /** A printed entry has no line break in it and nothing to strip. */
  lemma EntryIsOneLine(entry: seq<Field>)
    ensures Printable(Canonical(Obj(entry)))
    ensures Text.Strip(Canonical(Obj(entry))) == Canonical(Obj(entry)) && |Canonical(Obj(entry))| > 0
    ensures LineOf(entry) == Canonical(Obj(entry)) + "\n"
  {
    var v := SortedForm(Obj(entry));
    RenderPrintable(v);
    var s := Render(v);
    assert s[0] == '{' && s[|s| - 1] == '}';
  }

  /** The text is empty or ends with a line break. */
  predicate Terminated(text: string) {
    |text| == 0 || IsLineBreak(text[|text| - 1])
  }

  lemma {:induction false} LineLengthStops(text: string)
    ensures LineLength(text) < |text| ==> IsLineBreak(text[LineLength(text)])
    ensures forall i :: 0 <= i < LineLength(text) ==> !IsLineBreak(text[i])
  {
    if |text| > 0 && !IsLineBreak(text[0]) {
      LineLengthStops(text[1..]);
      forall i | 0 < i < LineLength(text)
        ensures !IsLineBreak(text[i])
      {
        assert text[i] == text[1..][i - 1];
      }
    }
  }

  lemma {:induction false} LineLengthOf(line: string, rest: string)
    requires forall i :: 0 <= i < |line| ==> !IsLineBreak(line[i])
    requires |rest| > 0 && IsLineBreak(rest[0])
    ensures LineLength(line + rest) == |line|
  {
    if |line| == 0 {
      assert line + rest == rest;
    } else {
      assert (line + rest)[1..] == line[1..] + rest;
      LineLengthOf(line[1..], rest);
    }
  }

  lemma LinesOfOne(line: string)
    requires |line| > 0 && Printable(line)
    ensures Lines(line + "\n") == [line]
  {
    var text := line + "\n";
    LineLengthOf(line, "\n");
    assert text[..|line|] == line && text[|line| + 1..] == "";
  }

  lemma LinesOfMore(text: string, added: string)
    requires |text| > 0 && Terminated(text)
    ensures var n := LineLength(text);
      && n < |text| && LineLength(text + added) == n
      && (text + added)[..n] == text[..n]
      && (text + added)[n + 1..] == text[n + 1..] + added
  {
    var n := LineLength(text);
    LineLengthStops(text);
    LineLengthOf(text[..n], text[n..] + added);
    assert text + added == text[..n] + (text[n..] + added);
  }

  lemma {:induction false} LinesAppend(text: string, line: string)
    requires Terminated(text)
    requires |line| > 0 && Printable(line)
    ensures Lines(text + (line + "\n")) == Lines(text) + [line]
    decreases |text|
  {
    if |text| == 0 {
      assert text + (line + "\n") == line + "\n";
      LinesOfOne(line);
    } else {
      LinesOfMore(text, line + "\n");
      LinesAppend(text[LineLength(text) + 1..], line);
    }
  }

  lemma {:induction false} RowsAppend(lines: seq<string>, line: string)
    requires RowsOf(lines).Ok? && |Text.Strip(line)| > 0
    ensures RowsOf(lines + [line]) == Prefixed(RowsOf(lines).value, RowsOf([line]))
  {
    if |lines| == 0 {
      assert lines + [line] == [line];
      PrefixedNone(RowsOf([line]));
    } else {
      assert (lines + [line])[1..] == lines[1..] + [line];
      if |Text.Strip(lines[0])| == 0 {
        RowsAppend(lines[1..], line);
      } else {
        RowsAppend(lines[1..], line);
        PrefixedTwice([Loads(Text.Strip(lines[0])).value], RowsOf(lines[1..]).value, RowsOf([line]));
      }
    }
  }

  lemma RowsOfSingle(line: string, v: Value)
    requires |line| > 0 && Text.Strip(line) == line && Loads(line) == Ok(v)
    ensures RowsOf([line]) == Ok([v])
  {
    assert [line][1..] == [];
    assert [v] + [] == [v];
  }

  lemma RowsOfEntry(entry: seq<Field>)
    ensures RowsOf([Canonical(Obj(entry))]) == Ok([Joined(SortedForm(Obj(entry)))])
  {
    EntryIsOneLine(entry);
    LoadsOfRender(SortedForm(Obj(entry)));
    RowsOfSingle(Canonical(Obj(entry)), Joined(SortedForm(Obj(entry))));
  }

  lemma FileAfterAppend(text: string, entry: seq<Field>)
    requires Terminated(text) && EntriesOf(text).Ok?
    ensures Terminated(text + LineOf(entry))
    ensures EntriesOf(text + LineOf(entry)) == Ok(EntriesOf(text).value + [Joined(SortedForm(Obj(entry)))])
  {
    var line := Canonical(Obj(entry));
    EntryIsOneLine(entry);
    LinesAppend(text, line);
    RowsAppend(Lines(text), line);
    RowsOfEntry(entry);
  }

  /**
   Appending an entry and reading the file back: the old rows, then the new
   entry, and nothing else -- exactly when the entry holds no split surrogate
   pair.  The file stays line-terminated, so the next append finds the same.
   */
  lemma FileRoundTrip(text: string, entry: seq<Field>)
    requires Terminated(text) && EntriesOf(text).Ok?
    requires WellFormed(Obj(entry))
    ensures Terminated(text + LineOf(entry))
    ensures EntriesOf(text + LineOf(entry)) == Ok(EntriesOf(text).value + [SortedForm(Obj(entry))])
            <==> NoSplitPairs(Obj(entry))
  {
    var rows, v := EntriesOf(text).value, SortedForm(Obj(entry));
    FileAfterAppend(text, entry);
    SortedFormKeeps(Obj(entry));
    JoinedIdentity(v);
    assert (rows + [Joined(v)])[|rows|] == Joined(v) && (rows + [v])[|rows|] == v;
  }

  lemma {:induction false} RowsArePlain(lines: seq<string>)
    requires RowsOf(lines).Ok?
    ensures forall i :: 0 <= i < |RowsOf(lines).value| ==> Plain(RowsOf(lines).value[i])
  {
    if |lines| > 0 {
      RowsArePlain(lines[1..]);
      if |Text.Strip(lines[0])| > 0 {
        LoadsIsPlain(Text.Strip(lines[0]));
      }
    }
  }

  /** Every row read from any ledger file has distinct keys and no split surrogate pair. */
  lemma EntriesArePlain(text: string)
    requires EntriesOf(text).Ok?
    ensures forall i :: 0 <= i < |EntriesOf(text).value| ==> Plain(EntriesOf(text).value[i])
  {
    RowsArePlain(Lines(text));
  }
}
