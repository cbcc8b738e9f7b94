/**
 The JSON that the run ledger and the receipts are made of: the printer behind
 `canonical` (sorted keys, no spaces, ASCII escapes) and the parser that reads a
 ledger line back.  A Python string is a sequence of code points and may hold
 lone surrogates; JSON text is decoded UTF-8, so it never does.
 */
module Json {
  import opened Outcomes

  type CodePoint = c: int | 0 <= c < 0x11_0000

  type PyString = seq<CodePoint>

  datatype Value =
    | Null
    | Bool(b: bool)
    | Int(n: int)
    | Float(token: FloatToken)  // as printed: two floats are compared by their texts
    | Str(s: PyString)
    | Arr(items: seq<Value>)
    | Obj(fields: seq<Field>)  // insertion order, as a Python dict keeps it

  datatype Field = Field(key: PyString, value: Value)

  /** The Python string a Dafny literal stands for. */
  function Py(s: string): (r: PyString)
    ensures |r| == |s|
  {
    seq(|s|, i requires 0 <= i < |s| => s[i] as int)
  }

  // ---- dictionaries ---------------------------------------------------------

  /** Position of `key`, or the length when it is absent. */
  function IndexOf(fields: seq<Field>, key: PyString): (i: nat)
    ensures i <= |fields|
    ensures i < |fields| ==> fields[i].key == key
    ensures forall j :: 0 <= j < i ==> fields[j].key != key
  {
    if |fields| == 0 then 0
    else if fields[0].key == key then 0
    else 1 + IndexOf(fields[1..], key)
  }

  predicate Has(fields: seq<Field>, key: PyString) {
    IndexOf(fields, key) < |fields|
  }

  /** `d.get(key)`: None when absent. */
  function Get(fields: seq<Field>, key: PyString): Option<Value> {
    if Has(fields, key) then Some(fields[IndexOf(fields, key)].value) else None
  }

  /** `d[key] = value`: an existing key keeps its position. */
  function Put(fields: seq<Field>, key: PyString, value: Value): seq<Field> {
    if Has(fields, key) then fields[IndexOf(fields, key) := Field(key, value)]
    else fields + [Field(key, value)]
  }

  /** `{k: v for k, v in d.items() if k != key}`. */
  function Without(fields: seq<Field>, key: PyString): seq<Field> {
    if |fields| == 0 then []
    else if fields[0].key == key then Without(fields[1..], key)
    else [fields[0]] + Without(fields[1..], key)
  }

  /** `dict(pairs)`: a later pair overwrites an earlier one with the same key. */
  function DictOf(pairs: seq<Field>): seq<Field> {
    if |pairs| == 0 then []
    else
      var last := pairs[|pairs| - 1];
      Put(DictOf(pairs[..|pairs| - 1]), last.key, last.value)
  }

  predicate UniqueKeys(fields: seq<Field>) {
    forall i, j :: 0 <= i < j < |fields| ==> fields[i].key != fields[j].key
  }

  /** Every object in the value has distinct keys, as every Python dict does. */
  predicate WellFormed(v: Value) {
    match v
    case Arr(items) => forall i :: 0 <= i < |items| ==> WellFormed(items[i])
    case Obj(fields) => UniqueKeys(fields) && forall i :: 0 <= i < |fields| ==> WellFormed(fields[i].value)
    case _ => true
  }

  // ---- sorting (sort_keys=True) ----------------------------------------------

  /** Python's `<` on strings: code point by code point, a proper prefix first. */
  predicate Before(a: PyString, b: PyString) {
    if |b| == 0 then false
    else if |a| == 0 then true
    else a[0] < b[0] || (a[0] == b[0] && Before(a[1..], b[1..]))
  }

  function InsertField(f: Field, sorted: seq<Field>): seq<Field> {
    if |sorted| == 0 || Before(f.key, sorted[0].key) then [f] + sorted
    else [sorted[0]] + InsertField(f, sorted[1..])
  }

  function SortByKey(fields: seq<Field>): seq<Field> {
    if |fields| == 0 then [] else InsertField(fields[0], SortByKey(fields[1..]))
  }

  /** The value with every dictionary's items in sorted order. */
  function SortedForm(v: Value): Value {
    match v
    case Arr(items) => Arr(SortedItems(items))
    case Obj(fields) => Obj(SortByKey(SortedFields(fields)))
    case _ => v
  }

  function SortedItems(items: seq<Value>): (r: seq<Value>)
    ensures |r| == |items|
    ensures forall i :: 0 <= i < |items| ==> r[i] == SortedForm(items[i])
  {
    if |items| == 0 then [] else [SortedForm(items[0])] + SortedItems(items[1..])
  }

  function SortedFields(fields: seq<Field>): (r: seq<Field>)
    ensures |r| == |fields|
    ensures forall i :: 0 <= i < |fields| ==> r[i] == Field(fields[i].key, SortedForm(fields[i].value))
  {
    if |fields| == 0 then []
    else [Field(fields[0].key, SortedForm(fields[0].value))] + SortedFields(fields[1..])
  }

  // ---- printing --------------------------------------------------------------

  predicate High(c: CodePoint) { 0xD800 <= c < 0xDC00 }

  predicate Low(c: CodePoint) { 0xDC00 <= c < 0xE000 }

  function HexDigit(n: int): char
    requires 0 <= n < 16
  {
    if n < 10 then ('0' as int + n) as char else ('a' as int + n - 10) as char
  }

  /** `\uXXXX`, lower case, four digits. */
  function UnicodeEscape(n: int): string
    requires 0 <= n < 0x1_0000
  {
    ['\\', 'u', HexDigit(n / 0x1000), HexDigit(n / 0x100 % 16), HexDigit(n / 0x10 % 16), HexDigit(n % 16)]
  }

  /** The UTF-16 surrogates of a character beyond the basic plane. */
  function HighHalf(c: CodePoint): (r: int)
    requires c >= 0x1_0000
    ensures 0xD800 <= r < 0xDC00
  {
    0xD800 + (c - 0x1_0000) / 0x400
  }

  function LowHalf(c: CodePoint): (r: int)
    requires c >= 0x1_0000
    ensures 0xDC00 <= r < 0xE000
  {
    0xDC00 + (c - 0x1_0000) % 0x400
  }

  function EscapeOne(c: CodePoint): string {
    if c == '\"' as int then "\\\""
    else if c == '\\' as int then "\\\\"
    else if c == 8 then "\\b"
    else if c == 9 then "\\t"
    else if c == 10 then "\\n"
    else if c == 12 then "\\f"
    else if c == 13 then "\\r"
    else if 0x20 <= c < 0x7F then [c as char]
    else if c < 0x1_0000 then UnicodeEscape(c)
    else UnicodeEscape(HighHalf(c)) + UnicodeEscape(LowHalf(c))
  }

  function Escape(s: PyString): string {
    if |s| == 0 then "" else EscapeOne(s[0]) + Escape(s[1..])
  }

  function Digits(n: nat): string {
    if n < 10 then [('0' as int + n) as char]
    else Digits(n / 10) + [('0' as int + n % 10) as char]
  }

  function Decimal(n: int): string {
    if n < 0 then "-" + Digits(-n) else Digits(n)
  }

  /** `json.dumps(v, separators=(",", ":"))`. */
  function Render(v: Value): string {
    match v
    case Null => "null"
    case Bool(b) => if b then "true" else "false"
    case Int(n) => Decimal(n)
    case Float(token) => token
    case Str(s) => Quote(s)
    case Arr(items) => if |items| == 0 then "[]" else "[" + RenderItems(items) + "]"
    case Obj(fields) => if |fields| == 0 then "{}" else "{" + RenderFields(fields) + "}"
  }

  function Quote(s: PyString): string {
    "\"" + Escape(s) + "\""
  }

  function RenderItems(items: seq<Value>): string
    requires |items| > 0
  {
    if |items| == 1 then Render(items[0]) else Render(items[0]) + "," + RenderItems(items[1..])
  }

  function RenderField(f: Field): string {
    Quote(f.key) + ":" + Render(f.value)
  }

  function RenderFields(fields: seq<Field>): string
    requires |fields| > 0
  {
    if |fields| == 1 then RenderField(fields[0])
    else RenderField(fields[0]) + "," + RenderFields(fields[1..])
  }

  /** `json.dumps(v, sort_keys=True, separators=(",", ":"))`, the bytes every digest is taken over. */
  function Canonical(v: Value): string {
    Render(SortedForm(v))
  }

  // ---- parsing ---------------------------------------------------------------

  /** A parsed value and the text behind it. */
  datatype Parsed<+T> = Parsed(value: T, rest: string)

  predicate IsSpace(c: char) { c == ' ' || c == '\t' || c == '\n' || c == '\r' }

  function SkipSpace(s: string): (r: string)
    ensures |r| <= |s|
  {
    if |s| > 0 && IsSpace(s[0]) then SkipSpace(s[1..]) else s
  }

  predicate IsDigit(c: char) { '0' <= c <= '9' }

  function HexValue(c: char): (r: Option<int>)
    ensures r.Some? ==> 0 <= r.value < 16
  {
    if '0' <= c <= '9' then Some(c as int - '0' as int)
    else if 'a' <= c <= 'f' then Some(c as int - 'a' as int + 10)
    else if 'A' <= c <= 'F' then Some(c as int - 'A' as int + 10)
    else None
  }

  /** The value of a leading `\uXXXX`, if the text starts with one. */
  function UnicodeAt(s: string): (r: Option<int>)
    ensures r.Some? ==> |s| >= 6 && 0 <= r.value < 0x1_0000
  {
    if |s| < 6 || s[0] != '\\' || s[1] != 'u' then None
    else
      var a, b, c, d := HexValue(s[2]), HexValue(s[3]), HexValue(s[4]), HexValue(s[5]);
      if a.Some? && b.Some? && c.Some? && d.Some?
      then Some(a.value * 0x1000 + b.value * 0x100 + c.value * 0x10 + d.value)
      else None
  }

  function Combine(high: int, low: int): CodePoint
    requires 0xD800 <= high < 0xDC00 && 0xDC00 <= low < 0xE000
  {
    0x1_0000 + (high - 0xD800) * 0x400 + (low - 0xDC00)
  }

  /** One character of a string literal; a high escape joins a low escape that follows it. */
  function ParseChar(s: string): (r: Result<Parsed<CodePoint>>)
    requires |s| > 0
    ensures r.Ok? ==> |r.value.rest| < |s|
  {
    if s[0] != '\\' then
      if s[0] < ' ' then Err("control character in string") else Ok(Parsed(s[0] as int, s[1..]))
    else if |s| < 2 then Err("unterminated string")
    else if s[1] == '\"' then Ok(Parsed('\"' as int, s[2..]))
    else if s[1] == '\\' then Ok(Parsed('\\' as int, s[2..]))
    else if s[1] == '/' then Ok(Parsed('/' as int, s[2..]))
    else if s[1] == 'b' then Ok(Parsed(8, s[2..]))
    else if s[1] == 'f' then Ok(Parsed(12, s[2..]))
    else if s[1] == 'n' then Ok(Parsed(10, s[2..]))
    else if s[1] == 'r' then Ok(Parsed(13, s[2..]))
    else if s[1] == 't' then Ok(Parsed(9, s[2..]))
    else
      match UnicodeAt(s)
      case None => Err("invalid escape")
      case Some(n) =>
        var next := UnicodeAt(s[6..]);
        if High(n) && next.Some? && Low(next.value) then Ok(Parsed(Combine(n, next.value), s[12..]))
        else Ok(Parsed(n, s[6..]))
  }

  /** The characters of a string literal up to its closing quote. */
  function ParseChars(s: string): (r: Result<Parsed<PyString>>)
    ensures r.Ok? ==> |r.value.rest| < |s|
    decreases |s|
  {
    if |s| == 0 then Err("unterminated string")
    else if s[0] == '\"' then Ok(Parsed([], s[1..]))
    else
      var c :- ParseChar(s);
      var tail :- ParseChars(c.rest);
      Ok(Parsed([c.value] + tail.value, tail.rest))
  }

  function DigitPrefix(s: string): (n: nat)
    ensures n <= |s|
  {
    if |s| > 0 && IsDigit(s[0]) then 1 + DigitPrefix(s[1..]) else 0
  }

  function NatOf(digits: string): nat
    requires forall i :: 0 <= i < |digits| ==> IsDigit(digits[i])
  {
    if |digits| == 0 then 0
    else
      assert IsDigit(digits[|digits| - 1]);
      NatOf(digits[..|digits| - 1]) * 10 + (digits[|digits| - 1] as int - '0' as int)
  }

  lemma DigitPrefixDigits(s: string)
    ensures forall i :: 0 <= i < DigitPrefix(s) ==> IsDigit(s[i])
  {
    if |s| > 0 && IsDigit(s[0]) {
      DigitPrefixDigits(s[1..]);
      forall i | 0 <= i < DigitPrefix(s)
        ensures IsDigit(s[i])
      {
        if i > 0 {
          assert s[i] == s[1..][i - 1];
        }
      }
    }
  }

  /** `0|[1-9][0-9]*`. */
  function ParseNat(s: string): (r: Result<Parsed<nat>>)
    ensures r.Ok? ==> |r.value.rest| < |s|
  {
    if |s| == 0 || !IsDigit(s[0]) then Err("expecting value")
    else if s[0] == '0' then Ok(Parsed(0, s[1..]))
    else
      DigitPrefixDigits(s);
      var n := DigitPrefix(s);
      Ok(Parsed(NatOf(s[..n]), s[n..]))
  }

  function ParseInt(s: string): (r: Result<Parsed<Value>>)
    requires |s| > 0
    ensures r.Ok? ==> |r.value.rest| < |s|
  {
    if s[0] == '-' then
      var p :- ParseNat(s[1..]);
      Ok(Parsed(Int(-(p.value as int)), p.rest))
    else
      var p :- ParseNat(s);
      Ok(Parsed(Int(p.value), p.rest))
  }

  // ---- numbers with a fraction or an exponent -----------------------------------

  /** Length of `-?(0|[1-9][0-9]*)` at the start of the text; 0 when it does not start with one. */
  function IntLength(s: string): (n: nat)
    ensures n <= |s|
  {
    var sign := if |s| > 0 && s[0] == '-' then 1 else 0;
    var t := s[sign..];
    if |t| == 0 || !IsDigit(t[0]) then 0
    else if t[0] == '0' then sign + 1
    else sign + DigitPrefix(t)
  }

  /** `(\.[0-9]+)?`. */
  function FractionLength(s: string): (n: nat)
    ensures n <= |s|
  {
    if |s| > 0 && s[0] == '.' && DigitPrefix(s[1..]) > 0 then 1 + DigitPrefix(s[1..]) else 0
  }

  /** `([eE][-+]?[0-9]+)?`. */
  function ExponentLength(s: string): (n: nat)
    ensures n <= |s|
  {
    if |s| == 0 || (s[0] != 'e' && s[0] != 'E') then 0
    else
      var start := if |s| > 1 && (s[1] == '+' || s[1] == '-') then 2 else 1;
      if DigitPrefix(s[start..]) > 0 then start + DigitPrefix(s[start..]) else 0
  }

  function TailLength(s: string): (n: nat)
    ensures n <= |s|
  {
    FractionLength(s) + ExponentLength(s[FractionLength(s)..])
  }

  predicate IsFloatToken(s: string) {
    var n := IntLength(s);
    n > 0 && TailLength(s[n..]) > 0 && n + TailLength(s[n..]) == |s|
  }

  type FloatToken = s: string | IsFloatToken(s) witness FloatWitness()

  /** 0.5 */
  function FloatWitness(): (s: string)
    ensures IsFloatToken(s)
  {
    assert "0.5"[1..] == ".5" && ".5"[1..] == "5" && "5"[1..] == "";
    assert DigitPrefix("5") == 1 && "0.5"[0..] == "0.5" && ".5"[2..] == "";
    "0.5"
  }

  lemma {:induction false} DigitPrefixCut(s: string, n: nat)
    requires DigitPrefix(s) <= n <= |s|
    ensures DigitPrefix(s[..n]) == DigitPrefix(s)
  {
    if |s| > 0 && IsDigit(s[0]) {
      DigitPrefixCut(s[1..], n - 1);
      assert s[..n][1..] == s[1..][..n - 1];
    }
  }

  lemma IntLengthCut(s: string, n: nat)
    requires 0 < IntLength(s) <= n <= |s|
    ensures IntLength(s[..n]) == IntLength(s)
  {
    var sign := if |s| > 0 && s[0] == '-' then 1 else 0;
    assert s[..n][sign..] == s[sign..][..n - sign];
    if s[sign] != '0' {
      DigitPrefixCut(s[sign..], n - sign);
    }
  }

  lemma FractionLengthCut(s: string, n: nat)
    requires FractionLength(s) <= n <= |s|
    ensures FractionLength(s[..n]) == FractionLength(s)
  {
    if n > 0 && s[0] == '.' {
      assert s[..n][1..] == s[1..][..n - 1];
      DigitPrefixCut(s[1..], n - 1);
    }
  }

  lemma ExponentLengthCut(s: string)
    ensures ExponentLength(s[..ExponentLength(s)]) == ExponentLength(s)
  {
    var n := ExponentLength(s);
    if n > 0 {
      var start := if |s| > 1 && (s[1] == '+' || s[1] == '-') then 2 else 1;
      assert s[..n][start..] == s[start..][..n - start];
      DigitPrefixCut(s[start..], n - start);
    }
  }

  lemma TailLengthCut(s: string)
    ensures TailLength(s[..TailLength(s)]) == TailLength(s)
  {
    var m, f := TailLength(s), FractionLength(s);
    FractionLengthCut(s, m);
    assert s[..m][f..] == s[f..][..m - f];
    ExponentLengthCut(s[f..]);
  }

  /** What the scan of a number stops at is a token of its own. */
  lemma TokenCut(s: string)
    requires IntLength(s) > 0 && TailLength(s[IntLength(s)..]) > 0
    ensures IsFloatToken(s[..IntLength(s) + TailLength(s[IntLength(s)..])])
  {
    var n := IntLength(s);
    var m := TailLength(s[n..]);
    IntLengthCut(s, n + m);
    TailLengthCut(s[n..]);
    assert s[..n + m][n..] == s[n..][..m];
  }

  /** Length of the float at the start of the text: a number with a fraction or an exponent; 0 when there is none. */
  function FloatLength(s: string): (n: nat)
    ensures n <= |s| && (n > 0 ==> IsFloatToken(s[..n]))
  {
    var n := IntLength(s);
    var m := TailLength(s[n..]);
    if n == 0 || m == 0 then 0
    else
      TokenCut(s);
      n + m
  }

  function ParseNumber(s: string): (r: Result<Parsed<Value>>)
    requires |s| > 0
    ensures r.Ok? ==> |r.value.rest| < |s|
  {
    var n := FloatLength(s);
    if n == 0 then ParseInt(s) else Ok(Parsed(Float(s[..n]), s[n..]))
  }

  /** One JSON value at the start of the text. */
  function ParseValue(s: string): (r: Result<Parsed<Value>>)
    ensures r.Ok? ==> |r.value.rest| < |s|
    decreases |s|, 0
  {
    if |s| == 0 then Err("expecting value")
    else if s[0] == '\"' then
      var p :- ParseChars(s[1..]);
      Ok(Parsed(Str(p.value), p.rest))
    else if s[0] == '{' then
      var t := SkipSpace(s[1..]);
      if |t| > 0 && t[0] == '}' then Ok(Parsed(Obj([]), t[1..]))
      else
        var p :- ParseMembers(t);
        Ok(Parsed(Obj(DictOf(p.value)), p.rest))
    else if s[0] == '[' then
      var t := SkipSpace(s[1..]);
      if |t| > 0 && t[0] == ']' then Ok(Parsed(Arr([]), t[1..]))
      else
        var p :- ParseElements(t);
        Ok(Parsed(Arr(p.value), p.rest))
    else if s[0] == 'n' && "null" <= s then Ok(Parsed(Null, s[4..]))
    else if s[0] == 't' && "true" <= s then Ok(Parsed(Bool(true), s[4..]))
    else if s[0] == 'f' && "false" <= s then Ok(Parsed(Bool(false), s[5..]))
    else ParseNumber(s)
  }

  /** `value (, value)* ]`. */
  function ParseElements(s: string): (r: Result<Parsed<seq<Value>>>)
    ensures r.Ok? ==> |r.value.rest| < |s|
    decreases |s|, 1
  {
    var v :- ParseValue(s);
    var t := SkipSpace(v.rest);
    if |t| > 0 && t[0] == ']' then Ok(Parsed([v.value], t[1..]))
    else if |t| > 0 && t[0] == ',' then
      var more :- ParseElements(SkipSpace(t[1..]));
      Ok(Parsed([v.value] + more.value, more.rest))
    else Err("expecting ',' delimiter")
  }

  /** `"key" : value`. */
  function ParseMember(s: string): (r: Result<Parsed<Field>>)
    ensures r.Ok? ==> |r.value.rest| < |s|
    decreases |s|, 1
  {
    if |s| == 0 || s[0] != '\"' then Err("expecting property name")
    else
      var k :- ParseChars(s[1..]);
      var t := SkipSpace(k.rest);
      if |t| == 0 || t[0] != ':' then Err("expecting ':' delimiter")
      else
        var v :- ParseValue(SkipSpace(t[1..]));
        Ok(Parsed(Field(k.value, v.value), v.rest))
  }

  /** `member (, member)* }`. */
  function ParseMembers(s: string): (r: Result<Parsed<seq<Field>>>)
    ensures r.Ok? ==> |r.value.rest| < |s|
    decreases |s|, 2
  {
    var m :- ParseMember(s);
    var t := SkipSpace(m.rest);
    if |t| > 0 && t[0] == '}' then Ok(Parsed([m.value], t[1..]))
    else if |t| > 0 && t[0] == ',' then
      var more :- ParseMembers(SkipSpace(t[1..]));
      Ok(Parsed([m.value] + more.value, more.rest))
    else Err("expecting ',' delimiter")
  }

  /** `json.loads(text)`. */
  function Loads(text: string): Result<Value> {
    var p :- ParseValue(SkipSpace(text));
    if |SkipSpace(p.rest)| == 0 then Ok(p.value) else Err("extra data")
  }
}
