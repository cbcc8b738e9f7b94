/**
 Printer and parser undo each other.  The exact statement has one exception: a
 Python string may hold a high surrogate followed by a low one as two code
 points, and the parser reads their two escapes back as a single character.
 */
module JsonRoundTrip {
  import opened Outcomes
  import opened Json

  // ---- what a value becomes when it is printed and read back -------------------

  /** Adjacent surrogate code points joined into the character they encode. */
  function Join(s: PyString): PyString {
    if |s| == 0 then []
    else if |s| >= 2 && High(s[0]) && Low(s[1]) then [Combine(s[0], s[1])] + Join(s[2..])
    else [s[0]] + Join(s[1..])
  }

  function Joined(v: Value): Value {
    match v
    case Str(s) => Str(Join(s))
    case Arr(items) => Arr(JoinedItems(items))
    case Obj(fields) => Obj(DictOf(JoinedFields(fields)))
    case _ => v
  }

  function JoinedItems(items: seq<Value>): (r: seq<Value>)
    ensures |r| == |items|
    ensures forall i :: 0 <= i < |items| ==> r[i] == Joined(items[i])
  {
    if |items| == 0 then [] else [Joined(items[0])] + JoinedItems(items[1..])
  }

  function JoinedFields(fields: seq<Field>): (r: seq<Field>)
    ensures |r| == |fields|
    ensures forall i :: 0 <= i < |fields| ==> r[i] == Field(Join(fields[i].key), Joined(fields[i].value))
  {
    if |fields| == 0 then []
    else [Field(Join(fields[0].key), Joined(fields[0].value))] + JoinedFields(fields[1..])
  }

  // ---- strings ------------------------------------------------------------------

  lemma HexRoundTrip(n: int)
    requires 0 <= n < 16
    ensures HexValue(HexDigit(n)) == Some(n)
  {
  }

  lemma FourDigits(n: int)
    requires 0 <= n < 0x1_0000
    ensures 0 <= n / 0x1000 < 16
    ensures n == n / 0x1000 * 0x1000 + n / 0x100 % 16 * 0x100 + n / 0x10 % 16 * 0x10 + n % 16
  {
    assert n / 0x10 / 0x10 == n / 0x100 && n / 0x100 / 0x10 == n / 0x1000;
  }

  lemma EscapeRoundTrip(n: int, rest: string)
    requires 0 <= n < 0x1_0000
    ensures UnicodeAt(UnicodeEscape(n) + rest) == Some(n)
    ensures (UnicodeEscape(n) + rest)[6..] == rest
  {
    var a, b, c, d := n / 0x1000, n / 0x100 % 16, n / 0x10 % 16, n % 16;
    FourDigits(n);
    HexRoundTrip(a);
    HexRoundTrip(b);
    HexRoundTrip(c);
    HexRoundTrip(d);
    var s := UnicodeEscape(n) + rest;
    assert s[2] == HexDigit(a) && s[3] == HexDigit(b) && s[4] == HexDigit(c) && s[5] == HexDigit(d);
  }

  /** A single `\\uXXXX` parses to its code point unless a low escape follows a high one. */
  lemma EscapedCharRoundTrip(c: CodePoint, rest: string)
    requires c < 0x1_0000
    requires High(c) ==> UnicodeAt(rest).None? || !Low(UnicodeAt(rest).value)
    ensures ParseChar(UnicodeEscape(c) + rest) == Ok(Parsed(c, rest))
  {
    EscapeRoundTrip(c, rest);
  }

  lemma PairRoundTrip(high: int, low: int, rest: string)
    requires 0xD800 <= high < 0xDC00 && 0xDC00 <= low < 0xE000
    ensures ParseChar(UnicodeEscape(high) + (UnicodeEscape(low) + rest)) == Ok(Parsed(Combine(high, low), rest))
  {
    var tail := UnicodeEscape(low) + rest;
    EscapeRoundTrip(high, tail);
    EscapeRoundTrip(low, rest);
    var text := UnicodeEscape(high) + tail;
    assert text[12..] == tail[6..];
  }

  lemma HalvesCombine(c: CodePoint)
    requires c >= 0x1_0000
    ensures Combine(HighHalf(c), LowHalf(c)) == c
  {
  }

  lemma Regroup(a: string, b: string, c: string)
    ensures a + b + c == a + (b + c)
  {
  }

  lemma WideCharRoundTrip(c: CodePoint, rest: string)
    requires c >= 0x1_0000
    ensures ParseChar(EscapeOne(c) + rest) == Ok(Parsed(c, rest))
  {
    HalvesCombine(c);
    PairRoundTrip(HighHalf(c), LowHalf(c), rest);
    Regroup(UnicodeEscape(HighHalf(c)), UnicodeEscape(LowHalf(c)), rest);
  }

  /** The characters printed as themselves or as a two-character escape. */
  predicate Short(c: CodePoint) {
    8 <= c <= 10 || 12 <= c <= 13 || 0x20 <= c < 0x7F
  }

  lemma ShortCharRoundTrip(c: CodePoint, rest: string)
    requires Short(c)
    ensures ParseChar(EscapeOne(c) + rest) == Ok(Parsed(c, rest))
  {
    var text := EscapeOne(c);
    if |text| == 1 {
      assert (text + rest)[1..] == rest && (text + rest)[0] == text[0];
    } else {
      assert (text + rest)[2..] == rest && (text + rest)[0] == text[0] && (text + rest)[1] == text[1];
    }
  }

  /** Every code point parses back, with anything behind it that does not complete a pair. */
  lemma CharRoundTrip(c: CodePoint, rest: string)
    requires High(c) ==> UnicodeAt(rest).None? || !Low(UnicodeAt(rest).value)
    ensures ParseChar(EscapeOne(c) + rest) == Ok(Parsed(c, rest))
  {
    if c >= 0x1_0000 {
      WideCharRoundTrip(c, rest);
    } else if Short(c) {
      ShortCharRoundTrip(c, rest);
    } else {
      EscapedCharRoundTrip(c, rest);
    }
  }

  lemma EscapeOneStart(c: CodePoint)
    ensures |EscapeOne(c)| > 0 && EscapeOne(c)[0] != '\"'
  {
  }

  /** What follows a high escape is a low escape only if the next code point is a low surrogate. */
  lemma NotLowEscape(c: CodePoint, tail: string)
    requires !Low(c)
    ensures UnicodeAt(EscapeOne(c) + tail).None? || !Low(UnicodeAt(EscapeOne(c) + tail).value)
  {
    var text := EscapeOne(c) + tail;
    if c >= 0x1_0000 {
      var lo := UnicodeEscape(LowHalf(c));
      assert text == UnicodeEscape(HighHalf(c)) + (lo + tail);
      EscapeRoundTrip(HighHalf(c), lo + tail);
    } else if Short(c) {
      assert text[0] == EscapeOne(c)[0];
      assert |EscapeOne(c)| == 2 ==> text[1] == EscapeOne(c)[1];
    } else {
      EscapeRoundTrip(c, tail);
    }
  }

  lemma CharStep(c: CodePoint, tail: string, more: PyString, rest: string)
    requires High(c) ==> UnicodeAt(tail).None? || !Low(UnicodeAt(tail).value)
    requires ParseChars(tail) == Ok(Parsed(more, rest))
    ensures ParseChars(EscapeOne(c) + tail) == Ok(Parsed([c] + more, rest))
  {
    EscapeOneStart(c);
    assert (EscapeOne(c) + tail)[0] == EscapeOne(c)[0];
    CharRoundTrip(c, tail);
  }

  lemma PairStep(high: CodePoint, low: CodePoint, tail: string, more: PyString, rest: string)
    requires High(high) && Low(low)
    requires ParseChars(tail) == Ok(Parsed(more, rest))
    ensures ParseChars(EscapeOne(high) + (EscapeOne(low) + tail)) == Ok(Parsed([Combine(high, low)] + more, rest))
  {
    PairRoundTrip(high, low, tail);
    assert EscapeOne(high) == UnicodeEscape(high) && EscapeOne(low) == UnicodeEscape(low);
    assert (UnicodeEscape(high) + (UnicodeEscape(low) + tail))[0] == '\\';
  }

  /** Peeling the first code point off an escaped string. */
  lemma EscapeHead(s: PyString, close: string)
    requires |s| > 0
    ensures Escape(s) + close == EscapeOne(s[0]) + (Escape(s[1..]) + close)
  {
  }

  lemma EscapeHeads(s: PyString, close: string)
    requires |s| > 1
    ensures Escape(s) + close == EscapeOne(s[0]) + (EscapeOne(s[1]) + (Escape(s[2..]) + close))
  {
    EscapeHead(s, close);
    EscapeHead(s[1..], close);
    assert s[1..][1..] == s[2..];
  }

  lemma NoPairAhead(s: PyString, close: string)
    requires |s| > 0 && UnicodeAt(close).None?
    requires |s| >= 2 && High(s[0]) ==> !Low(s[1])
    ensures High(s[0]) ==> UnicodeAt(Escape(s[1..]) + close).None? || !Low(UnicodeAt(Escape(s[1..]) + close).value)
  {
    if |s| == 1 {
      assert Escape(s[1..]) + close == close;
    } else if High(s[0]) {
      EscapeHead(s[1..], close);
      NotLowEscape(s[1], Escape(s[1..][1..]) + close);
    }
  }

  lemma {:induction false} CharsRoundTrip(s: PyString, rest: string)
    ensures ParseChars(Escape(s) + ("\"" + rest)) == Ok(Parsed(Join(s), rest))
    decreases |s|
  {
    var close := "\"" + rest;
    if |s| == 0 {
      assert s == [] && Escape(s) + close == close && close[1..] == rest;
    } else if |s| >= 2 && High(s[0]) && Low(s[1]) {
      CharsRoundTrip(s[2..], rest);
      EscapeHeads(s, close);
      PairStep(s[0], s[1], Escape(s[2..]) + close, Join(s[2..]), rest);
    } else {
      CharsRoundTrip(s[1..], rest);
      NoPairAhead(s, close);
      EscapeHead(s, close);
      CharStep(s[0], Escape(s[1..]) + close, Join(s[1..]), rest);
    }
  }

  // ---- numbers ------------------------------------------------------------------

  predicate StartsWithDigit(s: string) { |s| > 0 && IsDigit(s[0]) }

  lemma {:induction false} DigitsAreDigits(n: nat)
    ensures |Digits(n)| > 0 && forall i :: 0 <= i < |Digits(n)| ==> IsDigit(Digits(n)[i])
    ensures Digits(n)[0] == '0' ==> n == 0
    ensures NatOf(Digits(n)) == n
  {
    if n < 10 {
      assert Digits(n)[..0] == "";
    } else {
      DigitsAreDigits(n / 10);
      var init := Digits(n / 10);
      assert Digits(n) == init + [('0' as int + n % 10) as char];
      assert Digits(n)[..|init|] == init;
    }
  }

  lemma {:induction false} DigitPrefixOf(digits: string, rest: string)
    requires forall i :: 0 <= i < |digits| ==> IsDigit(digits[i])
    requires !StartsWithDigit(rest)
    ensures DigitPrefix(digits + rest) == |digits|
  {
    if |digits| == 0 {
      assert digits + rest == rest;
    } else {
      assert (digits + rest)[1..] == digits[1..] + rest;
      DigitPrefixOf(digits[1..], rest);
    }
  }

  lemma NatRoundTrip(n: nat, rest: string)
    requires !StartsWithDigit(rest)
    ensures ParseNat(Digits(n) + rest) == Ok(Parsed(n, rest))
  {
    var digits := Digits(n);
    DigitsAreDigits(n);
    assert (digits + rest)[0] == digits[0];
    if n == 0 {
      assert digits == "0" && (digits + rest)[1..] == rest;
    } else {
      DigitPrefixOf(digits, rest);
      assert (digits + rest)[..|digits|] == digits && (digits + rest)[|digits|..] == rest;
    }
  }

  lemma DecimalStart(n: int)
    ensures |Decimal(n)| > 0 && (Decimal(n)[0] == '-' || IsDigit(Decimal(n)[0]))
  {
    DigitsAreDigits(if n < 0 then -n else n);
  }

  lemma MinusRoundTrip(digits: string, n: nat, rest: string)
    requires ParseNat(digits + rest) == Ok(Parsed(n, rest))
    ensures ParseInt("-" + digits + rest) == Ok(Parsed(Int(-(n as int)), rest))
  {
    assert ("-" + digits + rest)[1..] == digits + rest;
  }

  lemma NegativeRoundTrip(n: nat, rest: string)
    requires !StartsWithDigit(rest)
    ensures ParseInt("-" + Digits(n) + rest) == Ok(Parsed(Int(-(n as int)), rest))
  {
    NatRoundTrip(n, rest);
    MinusRoundTrip(Digits(n), n, rest);
  }

  lemma IntRoundTrip(n: int, rest: string)
    requires !StartsWithDigit(rest)
    ensures ParseInt(Decimal(n) + rest) == Ok(Parsed(Int(n), rest))
  {
    if n < 0 {
      NegativeRoundTrip(-n, rest);
    } else {
      DigitsAreDigits(n);
      assert (Digits(n) + rest)[0] == Digits(n)[0];
      NatRoundTrip(n, rest);
    }
  }

  predicate NumberChar(c: char) {
    IsDigit(c) || c == '.' || c == 'e' || c == 'E' || c == '+' || c == '-'
  }

  /** No character of a number follows. */
  predicate EndsNumber(rest: string) {
    |rest| > 0 ==> !NumberChar(rest[0])
  }

  lemma {:induction false} DigitPrefixMore(s: string, rest: string)
    requires !StartsWithDigit(rest)
    ensures DigitPrefix(s + rest) == DigitPrefix(s)
  {
    if |s| == 0 {
      assert s + rest == rest;
    } else {
      assert (s + rest)[1..] == s[1..] + rest;
      DigitPrefixMore(s[1..], rest);
    }
  }

  lemma IntLengthMore(s: string, rest: string)
    requires IntLength(s) > 0 && !StartsWithDigit(rest)
    ensures IntLength(s + rest) == IntLength(s)
  {
    var sign := if s[0] == '-' then 1 else 0;
    assert (s + rest)[sign..] == s[sign..] + rest;
    DigitPrefixMore(s[sign..], rest);
  }

  lemma FractionLengthMore(s: string, rest: string)
    requires EndsNumber(rest)
    ensures FractionLength(s + rest) == FractionLength(s)
  {
    if |s| == 0 {
      assert s + rest == rest;
    } else {
      assert (s + rest)[1..] == s[1..] + rest;
      DigitPrefixMore(s[1..], rest);
    }
  }

  lemma ExponentLengthMore(s: string, rest: string)
    requires EndsNumber(rest)
    ensures ExponentLength(s + rest) == ExponentLength(s)
  {
    if |s| == 0 {
      assert s + rest == rest;
    } else {
      var start := if |s| > 1 && (s[1] == '+' || s[1] == '-') then 2 else 1;
      assert (s + rest)[start..] == s[start..] + rest;
      DigitPrefixMore(s[start..], rest);
    }
  }

  lemma TailLengthMore(s: string, rest: string)
    requires EndsNumber(rest)
    ensures TailLength(s + rest) == TailLength(s)
  {
    var f := FractionLength(s);
    FractionLengthMore(s, rest);
    assert (s + rest)[f..] == s[f..] + rest;
    ExponentLengthMore(s[f..], rest);
  }

  lemma FloatRoundTrip(token: FloatToken, rest: string)
    requires EndsNumber(rest)
    ensures ParseNumber(token + rest) == Ok(Parsed(Float(token), rest))
  {
    var s, n := token + rest, IntLength(token);
    IntLengthMore(token, rest);
    assert s[n..] == token[n..] + rest;
    TailLengthMore(token[n..], rest);
    assert s[..|token|] == token && s[|token|..] == rest;
  }

  lemma DecimalLength(n: int)
    ensures IntLength(Decimal(n)) == |Decimal(n)|
  {
    var digits := Digits(if n < 0 then -n else n);
    DigitsAreDigits(if n < 0 then -n else n);
    DigitPrefixOf(digits, "");
    assert digits + "" == digits;
    assert Decimal(n)[if n < 0 then 1 else 0..] == digits;
  }

  /** An integer is not the beginning of a float when no number character follows. */
  lemma IntIsNoFloat(n: int, rest: string)
    requires EndsNumber(rest)
    ensures ParseNumber(Decimal(n) + rest) == ParseInt(Decimal(n) + rest)
  {
    DecimalLength(n);
    DecimalStart(n);
    IntLengthMore(Decimal(n), rest);
    assert (Decimal(n) + rest)[|Decimal(n)|..] == rest && rest[0..] == rest;
  }

  // ---- values -------------------------------------------------------------------

  lemma TokenStart(token: FloatToken)
    ensures |token| > 0 && (token[0] == '-' || IsDigit(token[0]))
  {
  }

  /** A printed value starts with a character that is neither a space nor a closing bracket. */
  lemma RenderStart(v: Value)
    ensures |Render(v)| > 0 && !IsSpace(Render(v)[0]) && Render(v)[0] != ']'
  {
    match v
    case Int(n) => DecimalStart(n);
    case Float(token) => TokenStart(token);
    case _ =>
  }

  /** A text that starts with a literal, and what is behind it. */
  lemma LiteralSteps(text: string, literal: string, rest: string)
    requires text == literal + rest
    ensures literal == "null" ==> ParseValue(text) == Ok(Parsed(Null, rest))
    ensures literal == "true" ==> ParseValue(text) == Ok(Parsed(Bool(true), rest))
    ensures literal == "false" ==> ParseValue(text) == Ok(Parsed(Bool(false), rest))
  {
    assert literal <= text && text[|literal|..] == rest;
    assert |literal| > 0 ==> text[0] == literal[0];
  }

  lemma LiteralRoundTrip(v: Value, rest: string)
    requires v.Null? || v.Bool?
    ensures ParseValue(Render(v) + rest) == Ok(Parsed(v, rest))
  {
    LiteralSteps(Render(v) + rest, Render(v), rest);
  }

  lemma ValueIsNumber(s: string)
    requires |s| > 0 && (s[0] == '-' || IsDigit(s[0]))
    ensures ParseValue(s) == ParseNumber(s)
  {
    var c := s[0];
    assert c != '\"' && c != '{' && c != '[' && c != 'n' && c != 't' && c != 'f';
  }

  lemma NumberRoundTrip(n: int, rest: string)
    requires EndsNumber(rest)
    ensures ParseValue(Decimal(n) + rest) == Ok(Parsed(Int(n), rest))
  {
    DecimalStart(n);
    assert (Decimal(n) + rest)[0] == Decimal(n)[0];
    ValueIsNumber(Decimal(n) + rest);
    IntIsNoFloat(n, rest);
    IntRoundTrip(n, rest);
  }

  lemma FloatValueRoundTrip(token: FloatToken, rest: string)
    requires EndsNumber(rest)
    ensures ParseValue(token + rest) == Ok(Parsed(Float(token), rest))
  {
    TokenStart(token);
    assert (token + rest)[0] == token[0];
    ValueIsNumber(token + rest);
    FloatRoundTrip(token, rest);
  }

  lemma StrRoundTrip(s: PyString, rest: string)
    ensures ParseValue(Quote(s) + rest) == Ok(Parsed(Str(Join(s)), rest))
  {
    assert (Quote(s) + rest)[1..] == Escape(s) + ("\"" + rest);
    CharsRoundTrip(s, rest);
  }

  lemma {:induction false} ValueRoundTrip(v: Value, rest: string)
    requires EndsNumber(rest)
    ensures ParseValue(Render(v) + rest) == Ok(Parsed(Joined(v), rest))
    decreases v, 0
  {
    match v
    case Null => LiteralRoundTrip(v, rest);
    case Bool(_) => LiteralRoundTrip(v, rest);
    case Int(n) => NumberRoundTrip(n, rest);
    case Float(token) => FloatValueRoundTrip(token, rest);
    case Str(s) => StrRoundTrip(s, rest);
    case Arr(items) => ArrRoundTrip(items, rest);
    case Obj(fields) => ObjRoundTrip(fields, rest);
  }

  /** The steps of ParseValue on a bracket with something in it. */
  lemma ArrSteps(text: string, t: string, items: seq<Value>, rest: string)
    requires |text| > 0 && text[0] == '[' && text[1..] == t
    requires |t| > 0 && !IsSpace(t[0]) && t[0] != ']' && ParseElements(t) == Ok(Parsed(items, rest))
    ensures ParseValue(text) == Ok(Parsed(Arr(items), rest))
  {
  }

  lemma ObjSteps(text: string, t: string, fields: seq<Field>, rest: string)
    requires |text| > 0 && text[0] == '{' && text[1..] == t
    requires |t| > 0 && t[0] == '\"' && ParseMembers(t) == Ok(Parsed(fields, rest))
    ensures ParseValue(text) == Ok(Parsed(Obj(DictOf(fields)), rest))
  {
  }

  lemma EmptyRoundTrip(rest: string)
    ensures ParseValue("[]" + rest) == Ok(Parsed(Arr([]), rest))
    ensures ParseValue("{}" + rest) == Ok(Parsed(Obj([]), rest))
  {
    assert ("[]" + rest)[1..] == "]" + rest && ("]" + rest)[1..] == rest;
    assert ("{}" + rest)[1..] == "}" + rest && ("}" + rest)[1..] == rest;
  }

  lemma {:induction false} ArrRoundTrip(items: seq<Value>, rest: string)
    ensures ParseValue(Render(Arr(items)) + rest) == Ok(Parsed(Joined(Arr(items)), rest))
    decreases items, 2
  {
    if |items| == 0 {
      EmptyRoundTrip(rest);
    } else {
      var text, t := Render(Arr(items)) + rest, RenderItems(items) + "]" + rest;
      assert text[1..] == t;
      RenderStart(items[0]);
      assert t[0] == Render(items[0])[0];
      ItemsRoundTrip(items, rest);
      ArrSteps(text, t, JoinedItems(items), rest);
    }
  }

  lemma {:induction false} ObjRoundTrip(fields: seq<Field>, rest: string)
    ensures ParseValue(Render(Obj(fields)) + rest) == Ok(Parsed(Joined(Obj(fields)), rest))
    decreases fields, 2
  {
    if |fields| == 0 {
      EmptyRoundTrip(rest);
    } else {
      var text, t := Render(Obj(fields)) + rest, RenderFields(fields) + "}" + rest;
      assert text[1..] == t;
      assert t[0] == RenderField(fields[0])[0] == '\"';
      FieldsRoundTrip(fields, rest);
      ObjSteps(text, t, JoinedFields(fields), rest);
    }
  }

  lemma LastElement(s: string, v: Value, rest: string)
    requires ParseValue(s) == Ok(Parsed(v, "]" + rest))
    ensures ParseElements(s) == Ok(Parsed([v], rest))
  {
    assert ("]" + rest)[1..] == rest;
  }

  lemma NextElement(s: string, v: Value, next: string, more: seq<Value>, rest: string)
    requires ParseValue(s) == Ok(Parsed(v, "," + next))
    requires |next| > 0 && !IsSpace(next[0])
    requires ParseElements(next) == Ok(Parsed(more, rest))
    ensures ParseElements(s) == Ok(Parsed([v] + more, rest))
  {
    assert ("," + next)[1..] == next;
  }

  lemma {:induction false} ItemsRoundTrip(items: seq<Value>, rest: string)
    requires |items| > 0
    ensures ParseElements(RenderItems(items) + "]" + rest) == Ok(Parsed(JoinedItems(items), rest))
    decreases items, 1
  {
    var text, head := RenderItems(items) + "]" + rest, Render(items[0]);
    var v := Joined(items[0]);
    if |items| == 1 {
      assert text == head + ("]" + rest);
      ValueRoundTrip(items[0], "]" + rest);
      LastElement(text, v, rest);
      assert JoinedItems(items) == [v];
    } else {
      var next := RenderItems(items[1..]) + "]" + rest;
      assert text == head + ("," + next);
      ValueRoundTrip(items[0], "," + next);
      RenderStart(items[1]);
      assert next[0] == Render(items[1])[0];
      ItemsRoundTrip(items[1..], rest);
      NextElement(text, v, next, JoinedItems(items[1..]), rest);
    }
  }

  /** The steps of ParseMember, given what its string and its value parse to. */
  lemma MemberSteps(s: string, key: PyString, body: string, v: Value, rest: string)
    requires |s| > 0 && s[0] == '\"'
    requires ParseChars(s[1..]) == Ok(Parsed(key, ":" + body))
    requires |body| > 0 && !IsSpace(body[0])
    requires ParseValue(body) == Ok(Parsed(v, rest))
    ensures ParseMember(s) == Ok(Parsed(Field(key, v), rest))
  {
    var tail := ":" + body;
    assert SkipSpace(tail) == tail && tail[1..] == body && SkipSpace(body) == body;
  }

  lemma FieldText(f: Field, rest: string)
    ensures (RenderField(f) + rest)[0] == '\"'
    ensures (RenderField(f) + rest)[1..] == Escape(f.key) + ("\"" + (":" + (Render(f.value) + rest)))
  {
  }

  lemma {:induction false} FieldRoundTrip(f: Field, rest: string)
    requires EndsNumber(rest)
    ensures ParseMember(RenderField(f) + rest) == Ok(Parsed(Field(Join(f.key), Joined(f.value)), rest))
    decreases f, 0
  {
    var body := Render(f.value) + rest;
    RenderStart(f.value);
    assert body[0] == Render(f.value)[0];
    FieldText(f, rest);
    ValueRoundTrip(f.value, rest);
    CharsRoundTrip(f.key, ":" + body);
    MemberSteps(RenderField(f) + rest, Join(f.key), body, Joined(f.value), rest);
  }

  lemma LastMember(s: string, f: Field, rest: string)
    requires ParseMember(s) == Ok(Parsed(f, "}" + rest))
    ensures ParseMembers(s) == Ok(Parsed([f], rest))
  {
    assert ("}" + rest)[1..] == rest;
  }

  lemma NextMember(s: string, f: Field, next: string, more: seq<Field>, rest: string)
    requires ParseMember(s) == Ok(Parsed(f, "," + next))
    requires |next| > 0 && !IsSpace(next[0])
    requires ParseMembers(next) == Ok(Parsed(more, rest))
    ensures ParseMembers(s) == Ok(Parsed([f] + more, rest))
  {
    assert ("," + next)[1..] == next;
  }

  lemma {:induction false} FieldsRoundTrip(fields: seq<Field>, rest: string)
    requires |fields| > 0
    ensures ParseMembers(RenderFields(fields) + "}" + rest) == Ok(Parsed(JoinedFields(fields), rest))
    decreases fields, 1
  {
    var text, head := RenderFields(fields) + "}" + rest, RenderField(fields[0]);
    var f := Field(Join(fields[0].key), Joined(fields[0].value));
    if |fields| == 1 {
      assert text == head + ("}" + rest);
      FieldRoundTrip(fields[0], "}" + rest);
      LastMember(text, f, rest);
      assert JoinedFields(fields) == [f];
    } else {
      var next := RenderFields(fields[1..]) + "}" + rest;
      assert text == head + ("," + next);
      FieldRoundTrip(fields[0], "," + next);
      assert next[0] == RenderField(fields[1])[0] == '\"';
      FieldsRoundTrip(fields[1..], rest);
      NextMember(text, f, next, JoinedFields(fields[1..]), rest);
    }
  }

  /** Reading back what was printed, for every value. */
  lemma LoadsOfRender(v: Value)
    ensures Loads(Render(v)) == Ok(Joined(v))
  {
    RenderStart(v);
    ValueRoundTrip(v, "");
    assert Render(v) + "" == Render(v);
  }
}
