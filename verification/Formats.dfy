/**
 What Python makes of a string in a replacement field `{e!c:spec}`: the
 conversion, then the format specification.
 */
module Formats {
  import opened Outcomes

  /** Quoted is `!r` with the characters outside ASCII that Unicode calls printable, and `!a` with none. */
  datatype Conversion = NoConversion | AsString | Quoted(printable: set<char>)

  datatype Align = Left | Right | Center

  /** `[[fill]align][width][.precision]`; no specification is width 0 and no precision. */
  datatype Spec = Spec(fill: char, align: Align, width: nat, precision: Option<nat>)

  function Repeat(c: char, n: nat): (r: string)
    ensures |r| == n
  {
    seq(n, _ => c)
  }

  function HexDigit(d: nat): char
    requires d < 16
  {
    "0123456789abcdef"[d]
  }

  function Hex(n: nat, digits: nat): (r: string)
    ensures |r| == digits
  {
    if digits == 0 then "" else Hex(n / 16, digits - 1) + [HexDigit(n % 16)]
  }

  /** `repr` prefers single quotes, unless the string holds one and no double quote. */
  function QuoteOf(s: string): char {
    if '\'' in s && '"' !in s then '"' else '\''
  }

  function EscapedChar(c: char, quote: char, printable: set<char>): (r: string)
    ensures |r| >= 1
  {
    if c == quote || c == '\\' then ['\\', c]
    else if c == '\t' then "\\t"
    else if c == '\n' then "\\n"
    else if c == '\r' then "\\r"
    else if ' ' <= c <= '~' || (c > '~' && c in printable) then [c]
    else if c as int < 0x100 then "\\x" + Hex(c as int, 2)
    else if c as int < 0x1_0000 then "\\u" + Hex(c as int, 4)
    else "\\U" + Hex(c as int, 8)
  }

  function Escaped(s: string, quote: char, printable: set<char>): (r: string)
    ensures |r| >= |s|
  {
    if s == "" then "" else EscapedChar(s[0], quote, printable) + Escaped(s[1..], quote, printable)
  }

  function Converted(conversion: Conversion, s: string): (r: string)
    ensures if conversion.Quoted? then |r| >= |s| + 2 else r == s
  {
    match conversion
    case Quoted(printable) => [QuoteOf(s)] + Escaped(s, QuoteOf(s), printable) + [QuoteOf(s)]
    case _ => s
  }

  function Truncated(precision: Option<nat>, s: string): string {
    if precision.Some? && precision.value < |s| then s[..precision.value] else s
  }

  /** Padded to the width; an odd rest of a centred string goes to its right. */
  function Padded(spec: Spec, s: string): (r: string)
    ensures |r| == if spec.width > |s| then spec.width else |s|
    ensures spec.width <= |s| ==> r == s
  {
    var gap := if spec.width > |s| then spec.width - |s| else 0;
    match spec.align
    case Left => s + Repeat(spec.fill, gap)
    case Right => Repeat(spec.fill, gap) + s
    case Center => Repeat(spec.fill, gap / 2) + s + Repeat(spec.fill, gap - gap / 2)
  }

  function Formatted(conversion: Conversion, spec: Spec, s: string): string {
    Padded(spec, Truncated(spec.precision, Converted(conversion, s)))
  }

  predicate PlainText(s: string) {
    forall c :: c in s ==> ' ' <= c <= '~' && c != '\\'
  }

  lemma PlainChar(c: char, quote: char, printable: set<char>)
    requires ' ' <= c <= '~' && c != '\\' && c != quote
    ensures EscapedChar(c, quote, printable) == [c]
  {
  }

  lemma {:induction false} EscapedPlain(s: string, quote: char, printable: set<char>)
    requires PlainText(s) && quote !in s
    ensures Escaped(s, quote, printable) == s
  {
    if s != "" {
      assert s[0] in s && forall c :: c in s[1..] ==> c in s;
      EscapedPlain(s[1..], quote, printable);
      PlainChar(s[0], quote, printable);
      assert s == [s[0]] + s[1..];
    }
  }

  /** A plain string is quoted as it stands, in double quotes when it holds a single quote and no double one. */
  lemma QuotedIs(s: string, printable: set<char>)
    requires PlainText(s)
    ensures '\'' !in s ==> Converted(Quoted(printable), s) == "'" + s + "'"
    ensures '\'' in s && '"' !in s ==> Converted(Quoted(printable), s) == "\"" + s + "\""
  {
    if QuoteOf(s) !in s {
      EscapedPlain(s, QuoteOf(s), printable);
    }
  }

  /** The precision cuts what the conversion gave. */
  predicate Cuts(conversion: Conversion, spec: Spec, s: string) {
    spec.precision.Some? && spec.precision.value < |Converted(conversion, s)|
  }

  predicate AllFill(s: string, fill: char) {
    forall i :: 0 <= i < |s| ==> s[i] == fill
  }

  /** All padding of this size goes to the right. */
  predicate PadsRight(align: Align, gap: nat) {
    align == Left || (align == Center && gap <= 1)
  }

  /** What was cut off is put back by the padding. */
  predicate Refills(spec: Spec, s: string)
    requires spec.precision.Some? && spec.precision.value < |s|
  {
    var p := spec.precision.value;
    spec.width == |s| && (AllFill(s, spec.fill) || (AllFill(s[p..], spec.fill) && PadsRight(spec.align, |s| - p)))
  }

  /** A string that starts with fill and repeats itself that much later is all fill. */
  lemma ShiftedFill(s: string, fill: char, left: nat, n: nat)
    requires left > 0 && left + n <= |s| && AllFill(s[..left], fill)
    requires forall i :: 0 <= i < n ==> s[left + i] == s[i]
    ensures AllFill(s[..left + n], fill)
  {
    var k := left;
    while k < left + n
      invariant left <= k <= left + n && AllFill(s[..k], fill)
    {
      assert s[k] == s[left + (k - left)] == s[k - left] == s[..k][k - left];
      k := k + 1;
    }
  }

  lemma PaddedIs(spec: Spec, s: string, gap: nat, left: nat)
    requires spec.width == |s| + gap
    requires left == if spec.align == Left then 0 else if spec.align == Right then gap else gap / 2
    ensures Padded(spec, s) == Repeat(spec.fill, left) + s + Repeat(spec.fill, gap - left)
  {
  }

  /** The string cut at `p` with `left` of the padding in front. */
  function Around(s: string, fill: char, p: nat, left: nat): (t: string)
    requires p + left <= |s|
    ensures |t| == |s|
    ensures forall i :: 0 <= i < |s| ==> t[i] == if left <= i < left + p then s[i - left] else fill
  {
    Repeat(fill, left) + s[..p] + Repeat(fill, |s| - p - left)
  }

  lemma AroundIsAll(s: string, fill: char, p: nat, left: nat)
    requires p + left <= |s| && left > 0 && Around(s, fill, p, left) == s
    ensures AllFill(s, fill)
  {
    var t := Around(s, fill, p, left);
    forall i | 0 <= i < p
      ensures s[left + i] == s[i]
    {
      assert t[left + i] == s[i];
    }
    ShiftedFill(s, fill, left, p);
    forall i | 0 <= i < |s|
      ensures s[i] == fill
    {
      assert t[i] == s[i];
      assert i < left + p ==> s[..left + p][i] == s[i];
    }
  }

  lemma AroundIff(s: string, fill: char, p: nat, left: nat)
    requires p + left <= |s|
    ensures Around(s, fill, p, left) == s <==> AllFill(s, fill) || (left == 0 && AllFill(s[p..], fill))
  {
    var t := Around(s, fill, p, left);
    if t == s {
      if left > 0 {
        AroundIsAll(s, fill, p, left);
      } else {
        forall i | 0 <= i < |s[p..]|
          ensures s[p..][i] == fill
        {
          assert t[p + i] == fill;
        }
      }
    }
    if left == 0 && AllFill(s[p..], fill) {
      assert s == s[..p] + s[p..];
    }
  }

  /** A precision that cuts leaves a string alone exactly when the padding puts back what was cut off. */
  lemma CutKeepsIff(spec: Spec, s: string)
    requires spec.precision.Some? && spec.precision.value < |s|
    ensures Padded(spec, Truncated(spec.precision, s)) == s <==> Refills(spec, s)
  {
    var p := spec.precision.value;
    if spec.width == |s| {
      var gap := |s| - p;
      var left := if spec.align == Left then 0 else if spec.align == Right then gap else gap / 2;
      PaddedIs(spec, s[..p], gap, left);
      AroundIff(s, spec.fill, p, left);
    }
  }

  /** No conversion but `!s`, and a specification that neither pads nor cuts. */
  predicate Transparent(conversion: Conversion, spec: Spec) {
    !conversion.Quoted? && spec.width == 0 && spec.precision.None?
  }

  /** Those are the only fields that leave every string alone. */
  lemma TransparentIff(conversion: Conversion, spec: Spec)
    ensures Transparent(conversion, spec)
      <==> forall s: string {:trigger Formatted(conversion, spec, s)} :: Formatted(conversion, spec, s) == s
  {
    if !Transparent(conversion, spec) {
      if spec.precision.None? {
        assert Formatted(conversion, spec, "") != "";
      } else {
        var p := spec.precision.value;
        var s := Repeat('x', spec.width + p + 1);
        assert |Truncated(spec.precision, Converted(conversion, s))| <= p;
        assert |Formatted(conversion, spec, s)| < |s|;
      }
    }
  }
}
