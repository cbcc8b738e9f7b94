/** The canonical text character by character, and that nothing is written between its tokens. */
module CanonicalText {
  import opened Outcomes
  import opened Json
  import opened JsonRoundTrip

  // ---- one character --------------------------------------------------------------------

  /** Lower-case hexadecimal digits behind `\u`. */
  predicate LowerEscape(t: string) {
    && |t| == 6 && t[0] == '\\' && t[1] == 'u'
    && forall i :: 2 <= i < 6 ==> '0' <= t[i] <= '9' || 'a' <= t[i] <= 'f'
  }

  lemma EscapeReads(n: int)
    requires 0 <= n < 0x1_0000
    ensures LowerEscape(UnicodeEscape(n)) && UnicodeAt(UnicodeEscape(n)) == Some(n)
  {
    EscapeRoundTrip(n, "");
    assert UnicodeEscape(n) + "" == UnicodeEscape(n);
  }

  /** The characters with an escape of their own, and its letter. */
  const LETTERS: map<int, char> :=
    map[34 := '"', 92 := '\\', 8 := 'b', 9 := 't', 10 := 'n', 12 := 'f', 13 := 'r']

  /**
   Printable ASCII stands for itself, but for the quote and the backslash; seven
   characters have a short escape; any other of the basic plane is `\u` and its
   four lower-case digits, and one beyond it the two surrogates in this form.
   */
  lemma EscapeIs(c: CodePoint)
    ensures var t := EscapeOne(c);
      && (32 <= c < 127 && c !in LETTERS ==> t == [c as char])
      && (c in LETTERS ==> t == ['\\', LETTERS[c]])
      && (c !in LETTERS && !(32 <= c < 127) && c < 0x1_0000 ==> LowerEscape(t) && UnicodeAt(t) == Some(c))
      && (c >= 0x1_0000 ==>
            && |t| == 12 && LowerEscape(t[..6]) && LowerEscape(t[6..])
            && var high, low := UnicodeAt(t[..6]), UnicodeAt(t[6..]);
            && high.Some? && low.Some? && High(high.value) && Low(low.value) && Combine(high.value, low.value) == c)
  {
    if c >= 0x1_0000 {
      EscapeReads(HighHalf(c));
      EscapeReads(LowHalf(c));
      HalvesCombine(c);
      assert EscapeOne(c)[..6] == UnicodeEscape(HighHalf(c)) && EscapeOne(c)[6..] == UnicodeEscape(LowHalf(c));
    } else if c !in LETTERS && !(32 <= c < 127) {
      EscapeReads(c);
    }
  }

  /** Short escapes are read back as their character, `\/` as a slash, and digits in either case. */
  lemma EscapesRead(c: CodePoint, rest: string, d: char, n: int)
    requires c in LETTERS && 0 <= n < 16
    ensures ParseChar(['\\', LETTERS[c]] + rest) == Ok(Parsed(c, rest))
    ensures ParseChar("\\/" + rest) == Ok(Parsed(47, rest))
    ensures HexValue(d) == Some(n) <==> d == "0123456789abcdef"[n] || d == "0123456789ABCDEF"[n]
  {
    assert (['\\', LETTERS[c]] + rest)[2..] == rest && ("\\/" + rest)[2..] == rest;
    HexLetters(d, n);
  }

  lemma HexLetters(d: char, n: int)
    requires 0 <= n < 16
    ensures HexValue(d) == Some(n) <==> d == "0123456789abcdef"[n] || d == "0123456789ABCDEF"[n]
  {
  }

  /** Any other character of a string is read as itself, unless it is a control character. */
  lemma CharRead(c: char, rest: string)
    requires c != '\\'
    ensures ParseChar([c] + rest) ==
      if c as int < 32 then Err("control character in string") else Ok(Parsed(c as int, rest))
  {
    assert ([c] + rest)[1..] == rest;
  }

  /** White space in front of a value does not matter. */
  lemma SpaceInFront(space: string, text: string)
    requires forall i :: 0 <= i < |space| ==> space[i] in {' ', '\t', '\n', '\r'}
    ensures Loads(space + text) == Loads(text)
  {
    SpaceSkipped(space, text);
  }

  lemma {:induction false} SpaceSkipped(space: string, text: string)
    requires forall i :: 0 <= i < |space| ==> space[i] in {' ', '\t', '\n', '\r'}
    ensures SkipSpace(space + text) == SkipSpace(text)
  {
    if space == "" {
      assert space + text == text;
    } else {
      assert (space + text)[1..] == space[1..] + text;
      SpaceSkipped(space[1..], text);
    }
  }

  // ---- integers ---------------------------------------------------------------------------

  lemma {:induction false} NoLeadingZero(n: nat)
    ensures |Digits(n)| > 0 && (forall i :: 0 <= i < |Digits(n)| ==> '0' <= Digits(n)[i] <= '9')
    ensures Digits(n)[0] == '0' ==> Digits(n) == "0"
    ensures n == 0 <==> Digits(n) == "0"
  {
    if n >= 10 {
      NoLeadingZero(n / 10);
    }
  }

  /** A minus sign exactly in front of negative numbers, and no leading zero. */
  lemma DecimalIs(n: int)
    ensures var t := Decimal(n);
      && |t| > 0 && (t[0] == '-' <==> n < 0) && (n == 0 <==> t == "0")
      && (n != 0 ==> (if n < 0 then |t| > 1 && t[1] != '0' else t[0] != '0'))
  {
    NoLeadingZero(if n < 0 then -n else n);
  }

  // ---- no white space between tokens ---------------------------------------------------------

  predicate Compact(s: string) {
    forall i :: 0 <= i < |s| ==> '!' <= s[i] <= '~'
  }

  /** No key and no string holds a space. */
  predicate Spaceless(v: Value) {
    match v
    case Str(s) => 32 !in s
    case Arr(items) => forall i :: 0 <= i < |items| ==> Spaceless(items[i])
    case Obj(fields) => forall i :: 0 <= i < |fields| ==> 32 !in fields[i].key && Spaceless(fields[i].value)
    case _ => true
  }

  lemma CompactBoth(a: string, b: string)
    requires Compact(a) && Compact(b)
    ensures Compact(a + b)
  {
  }

  lemma IntCompact(s: string)
    ensures Compact(s[..IntLength(s)])
  {
    if IntLength(s) > 0 {
      DigitPrefixDigits(s[if s[0] == '-' then 1 else 0..]);
    }
  }

  lemma FractionCompact(s: string)
    ensures Compact(s[..FractionLength(s)])
  {
    if FractionLength(s) > 0 {
      DigitPrefixDigits(s[1..]);
    }
  }

  lemma ExponentCompact(s: string)
    ensures Compact(s[..ExponentLength(s)])
  {
    if ExponentLength(s) > 0 {
      DigitPrefixDigits(s[if |s| > 1 && (s[1] == '+' || s[1] == '-') then 2 else 1..]);
    }
  }

  lemma TailCompact(s: string)
    ensures Compact(s[..TailLength(s)])
  {
    var f := FractionLength(s);
    var x := s[f..][..ExponentLength(s[f..])];
    FractionCompact(s);
    ExponentCompact(s[f..]);
    CompactBoth(s[..f], x);
    assert s[..TailLength(s)] == s[..f] + x;
  }

  lemma TokenCompact(s: string)
    requires IsFloatToken(s)
    ensures Compact(s)
  {
    var n := IntLength(s);
    IntCompact(s);
    TailCompact(s[n..]);
    assert s[n..][..TailLength(s[n..])] == s[n..];
    CompactBoth(s[..n], s[n..]);
    assert s[..n] + s[n..] == s;
  }

  lemma HexCompact(n: int)
    requires 0 <= n < 0x1_0000
    ensures Compact(UnicodeEscape(n))
  {
  }

  lemma OneCompact(c: CodePoint)
    requires c != 32
    ensures Compact(EscapeOne(c))
  {
    if c >= 0x1_0000 {
      HexCompact(HighHalf(c));
      HexCompact(LowHalf(c));
      CompactBoth(UnicodeEscape(HighHalf(c)), UnicodeEscape(LowHalf(c)));
    } else if !Short(c) {
      HexCompact(c);
    }
  }

  lemma {:induction false} EscapeCompact(s: PyString)
    requires 32 !in s
    ensures Compact(Escape(s))
  {
    if |s| > 0 {
      OneCompact(s[0]);
      EscapeCompact(s[1..]);
      CompactBoth(EscapeOne(s[0]), Escape(s[1..]));
    }
  }

  lemma DecimalCompact(n: int)
    ensures Compact(Decimal(n))
  {
    NoLeadingZero(if n < 0 then -n else n);
  }

  lemma QuoteCompact(s: PyString)
    requires 32 !in s
    ensures Compact(Quote(s))
  {
    EscapeCompact(s);
    CompactBoth("\"", Escape(s));
    CompactBoth("\"" + Escape(s), "\"");
  }

  lemma LeafCompact(v: Value)
    requires Spaceless(v) && !v.Arr? && !v.Obj?
    ensures Compact(Render(v))
  {
    match v
    case Int(n) => DecimalCompact(n);
    case Float(token) => TokenCompact(token);
    case Str(s) => QuoteCompact(s);
    case _ =>
  }

  /** Where no string holds a space, the text holds none, and no line break or tab either. */
  lemma {:induction false} RenderCompact(v: Value)
    requires Spaceless(v)
    ensures Compact(Render(v))
    decreases v, 0
  {
    match v
    case Arr(items) =>
      if |items| > 0 {
        ItemsCompact(items);
        CompactBoth("[", RenderItems(items));
      }
    case Obj(fields) =>
      if |fields| > 0 {
        FieldsCompact(fields);
        CompactBoth("{", RenderFields(fields));
      }
    case _ => LeafCompact(v);
  }

  lemma {:induction false} ItemsCompact(items: seq<Value>)
    requires |items| > 0 && forall i :: 0 <= i < |items| ==> Spaceless(items[i])
    ensures Compact(RenderItems(items))
    decreases items, 0
  {
    RenderCompact(items[0]);
    if |items| > 1 {
      ItemsCompact(items[1..]);
    }
  }

  lemma {:induction false} FieldsCompact(fields: seq<Field>)
    requires |fields| > 0
    requires forall i :: 0 <= i < |fields| ==> 32 !in fields[i].key && Spaceless(fields[i].value)
    ensures Compact(RenderFields(fields))
    decreases fields, 0
  {
    QuoteCompact(fields[0].key);
    RenderCompact(fields[0].value);
    CompactBoth(Quote(fields[0].key) + ":", Render(fields[0].value));
    if |fields| > 1 {
      FieldsCompact(fields[1..]);
    }
  }
}
