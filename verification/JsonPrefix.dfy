/** No JSON object is the beginning of another text's object: what was parsed stays parsed when more text follows. */
module JsonPrefix {
  import opened Outcomes
  import opened Json
  import opened JsonRoundTrip

  lemma {:induction false} SkipStays(s: string, x: string)
    requires SkipSpace(s) != ""
    ensures SkipSpace(s + x) == SkipSpace(s) + x
  {
    if IsSpace(s[0]) {
      assert (s + x)[1..] == s[1..] + x;
      SkipStays(s[1..], x);
    }
  }

  lemma UnicodeStays(s: string, x: string)
    requires |s| >= 6
    ensures UnicodeAt(s + x) == UnicodeAt(s)
  {
  }

  /** A cut escape never continues a string. */
  lemma CutEscape(s: string)
    requires ParseChars(s).Ok? && |s| < 6
    ensures |s| > 0 && !(|s| > 1 && s[0] == '\\' && s[1] == 'u')
  {
  }

  lemma CutStays(s: string, x: string)
    requires ParseChars(s).Ok?
    ensures UnicodeAt(s + x) == UnicodeAt(s)
  {
    if |s| >= 6 {
      UnicodeStays(s, x);
    } else {
      CutEscape(s);
      assert (s + x)[0] == s[0] && (|s| > 1 ==> (s + x)[1] == s[1]);
    }
  }

  lemma AfterEscape(s: string)
    requires 6 <= |s| < 12 && s[0] == '\\' && s[1] == 'u' && UnicodeAt(s).Some? && ParseChars(s).Ok?
    ensures ParseChars(s[6..]).Ok?
  {
    assert UnicodeAt(s[6..]).None?;
  }

  /** Whether a low escape follows does not change either. */
  lemma NextEscapeStays(t: string, x: string)
    requires |t| >= 6 || ParseChars(t).Ok?
    ensures UnicodeAt(t + x) == UnicodeAt(t)
  {
    if |t| >= 6 {
      UnicodeStays(t, x);
    } else {
      CutStays(t, x);
    }
  }

  lemma WideStays(s: string, x: string)
    requires |s| >= 6 && s[0] == '\\' && s[1] == 'u' && UnicodeAt(s).Some? && ParseChars(s).Ok?
    ensures ParseChar(s).Ok?
    ensures var c := ParseChar(s).value; ParseChar(s + x) == Ok(Parsed(c.value, c.rest + x))
  {
    if |s| < 12 {
      AfterEscape(s);
    }
    NextEscapeStays(s[6..], x);
    WideCharStays(s, x);
  }

  lemma WideCharStays(s: string, x: string)
    requires |s| >= 6 && s[0] == '\\' && s[1] == 'u' && UnicodeAt(s).Some?
    requires UnicodeAt(s[6..] + x) == UnicodeAt(s[6..])
    ensures ParseChar(s).Ok?
    ensures var c := ParseChar(s).value; ParseChar(s + x) == Ok(Parsed(c.value, c.rest + x))
  {
    UnicodeStays(s, x);
    assert (s + x)[6..] == s[6..] + x;
    if |s| >= 12 {
      assert (s + x)[12..] == s[12..] + x;
    }
  }

  lemma ShortStays(s: string, x: string)
    requires |s| > 1 && s[0] == '\\' && s[1] != 'u' && ParseChar(s).Ok?
    ensures var c := ParseChar(s).value; ParseChar(s + x) == Ok(Parsed(c.value, c.rest + x))
  {
    var t := s + x;
    assert t[0] == s[0] && t[1] == s[1] && t[2..] == s[2..] + x;
  }

  lemma PlainStays(s: string, x: string)
    requires |s| > 0 && s[0] != '\\' && ParseChar(s).Ok?
    ensures var c := ParseChar(s).value; ParseChar(s + x) == Ok(Parsed(c.value, c.rest + x))
  {
    assert (s + x)[0] == s[0] && (s + x)[1..] == s[1..] + x;
  }

  lemma CharStays(s: string, x: string)
    requires |s| > 0 && s[0] != '\"' && ParseChars(s).Ok?
    ensures ParseChar(s).Ok?
    ensures var c := ParseChar(s).value; ParseChar(s + x) == Ok(Parsed(c.value, c.rest + x))
  {
    if s[0] != '\\' {
      PlainStays(s, x);
    } else if s[1] == 'u' {
      WideStays(s, x);
    } else {
      ShortStays(s, x);
    }
  }

  lemma {:induction false} CharsStay(s: string, x: string)
    requires ParseChars(s).Ok?
    ensures var p := ParseChars(s).value; ParseChars(s + x) == Ok(Parsed(p.value, p.rest + x))
    decreases |s|
  {
    if s[0] == '\"' {
      assert (s + x)[1..] == s[1..] + x;
    } else {
      CharStays(s, x);
      CharsStay(ParseChar(s).value.rest, x);
      assert (s + x)[0] == s[0];
    }
  }

  // ---- numbers -------------------------------------------------------------------

  lemma {:induction false} DigitsStay(s: string, x: string)
    requires DigitPrefix(s) < |s|
    ensures DigitPrefix(s + x) == DigitPrefix(s)
  {
    if IsDigit(s[0]) {
      assert (s + x)[1..] == s[1..] + x;
      DigitsStay(s[1..], x);
    }
  }

  lemma NatStays(s: string, x: string)
    requires ParseNat(s).Ok? && ParseNat(s).value.rest != ""
    ensures var p := ParseNat(s).value; ParseNat(s + x) == Ok(Parsed(p.value, p.rest + x))
  {
    if s[0] == '0' {
      assert (s + x)[1..] == s[1..] + x;
    } else {
      DigitsStay(s, x);
      var n := DigitPrefix(s);
      assert (s + x)[..n] == s[..n] && (s + x)[n..] == s[n..] + x;
    }
  }

  lemma IntStays(s: string, x: string)
    requires |s| > 0 && ParseInt(s).Ok? && ParseInt(s).value.rest != ""
    ensures var p := ParseInt(s).value; ParseInt(s + x) == Ok(Parsed(p.value, p.rest + x))
  {
    assert (s + x)[0] == s[0];
    if s[0] == '-' {
      assert (s + x)[1..] == s[1..] + x;
      NatStays(s[1..], x);
    } else {
      NatStays(s, x);
    }
  }

  /** An integer takes exactly the text that the scan for one finds. */
  lemma IntTakes(s: string)
    requires |s| > 0 && ParseInt(s).Ok?
    ensures IntLength(s) > 0 && ParseInt(s).value.rest == s[IntLength(s)..]
  {
    if s[0] != '-' {
      assert s[0..] == s;
    }
  }

  lemma NoTail(s: string)
    requires s != "" && EndsNumber(s)
    ensures TailLength(s) == 0
  {
    assert s[0..] == s;
  }

  lemma WholeStays(s: string, x: string)
    requires |s| > 0 && ParseNumber(s).Ok? && FloatLength(s) == 0
    requires ParseNumber(s).value.rest != "" && EndsNumber(ParseNumber(s).value.rest)
    ensures var p := ParseNumber(s).value; ParseNumber(s + x) == Ok(Parsed(p.value, p.rest + x))
  {
    IntTakes(s);
    IntStays(s, x);
    IntTakes(s + x);
    NoTail(s[IntLength(s)..] + x);
  }

  lemma EndsMore(rest: string, x: string)
    requires rest != "" && EndsNumber(rest)
    ensures EndsNumber(rest + x)
  {
  }

  lemma TokenStays(token: FloatToken, rest: string, x: string)
    requires rest != "" && EndsNumber(rest)
    ensures ParseNumber(token + rest + x) == Ok(Parsed(Float(token), rest + x))
  {
    EndsMore(rest, x);
    FloatRoundTrip(token, rest + x);
    Regroup(token, rest, x);
  }

  /** A number stays the same number when what follows it cannot belong to a number. */
  lemma NumberStays(s: string, x: string)
    requires |s| > 0 && ParseNumber(s).Ok?
    requires ParseNumber(s).value.rest != "" && EndsNumber(ParseNumber(s).value.rest)
    ensures var p := ParseNumber(s).value; ParseNumber(s + x) == Ok(Parsed(p.value, p.rest + x))
  {
    var n := FloatLength(s);
    if n == 0 {
      WholeStays(s, x);
    } else {
      TokenStays(s[..n], s[n..], x);
      assert s[..n] + s[n..] == s;
    }
  }

  // ---- values --------------------------------------------------------------------

  /** A value that is closed, or followed by something that is not part of a number. */
  predicate Over(s: string, rest: string) {
    |s| > 0 && (s[0] == '\"' || s[0] == '{' || s[0] == '[' || (rest != "" && EndsNumber(rest)))
  }

  lemma {:induction false} ValueStays(s: string, x: string)
    requires ParseValue(s).Ok? && Over(s, ParseValue(s).value.rest)
    ensures var p := ParseValue(s).value; ParseValue(s + x) == Ok(Parsed(p.value, p.rest + x))
    decreases |s|, 0
  {
    assert (s + x)[0] == s[0] && (s + x)[1..] == s[1..] + x;
    if s[0] == '\"' {
      CharsStay(s[1..], x);
    } else if s[0] == '{' {
      ObjectStays(s, x);
    } else if s[0] == '[' {
      ArrayStays(s, x);
    } else {
      ScalarStays(s, x);
    }
  }

  lemma ScalarStays(s: string, x: string)
    requires ParseValue(s).Ok? && s[0] !in {'\"', '{', '['}
    requires ParseValue(s).value.rest != "" && EndsNumber(ParseValue(s).value.rest)
    ensures var p := ParseValue(s).value; ParseValue(s + x) == Ok(Parsed(p.value, p.rest + x))
  {
    assert (s + x)[0] == s[0];
    if s[0] in {'n', 't', 'f'} {
      var p := ParseValue(s).value;
      var n := |s| - |p.rest|;
      assert s[..n] + (p.rest + x) == s + x;
      LiteralSteps(s + x, s[..n], p.rest + x);
    } else {
      NumberStays(s, x);
    }
  }

  lemma {:induction false} ObjectStays(s: string, x: string)
    requires |s| > 0 && s[0] == '{' && ParseValue(s).Ok?
    ensures var p := ParseValue(s).value; ParseValue(s + x) == Ok(Parsed(p.value, p.rest + x))
    decreases |s|, -1
  {
    var t := SkipSpace(s[1..]);
    assert (s + x)[0] == s[0] && (s + x)[1..] == s[1..] + x;
    assert t != "";
    SkipStays(s[1..], x);
    if t[0] == '}' {
      assert (t + x)[1..] == t[1..] + x;
    } else {
      MembersStay(t, x);
    }
  }

  lemma {:induction false} ArrayStays(s: string, x: string)
    requires |s| > 0 && s[0] == '[' && ParseValue(s).Ok?
    ensures var p := ParseValue(s).value; ParseValue(s + x) == Ok(Parsed(p.value, p.rest + x))
    decreases |s|, -1
  {
    var t := SkipSpace(s[1..]);
    assert (s + x)[0] == s[0] && (s + x)[1..] == s[1..] + x;
    assert t != "";
    SkipStays(s[1..], x);
    if t[0] == ']' {
      assert (t + x)[1..] == t[1..] + x;
    } else {
      ElementsStay(t, x);
    }
  }

  /** What follows a value inside brackets is white space or punctuation. */
  lemma InsideIsOver(rest: string)
    requires SkipSpace(rest) != "" && SkipSpace(rest)[0] in {',', ']', '}'}
    ensures rest != "" && EndsNumber(rest)
  {
  }

  lemma LastElementIs(s: string, v: Parsed<Value>, t: string)
    requires ParseValue(s) == Ok(v) && SkipSpace(v.rest) == t && t != "" && t[0] == ']'
    ensures ParseElements(s) == Ok(Parsed([v.value], t[1..]))
  {
  }

  lemma NextElementIs(s: string, v: Parsed<Value>, t: string, more: Parsed<seq<Value>>)
    requires ParseValue(s) == Ok(v) && SkipSpace(v.rest) == t && t != "" && t[0] == ','
    requires ParseElements(SkipSpace(t[1..])) == Ok(more)
    ensures ParseElements(s) == Ok(Parsed([v.value] + more.value, more.rest))
  {
  }

  lemma {:induction false} ElementsStay(s: string, x: string)
    requires ParseElements(s).Ok?
    ensures var p := ParseElements(s).value; ParseElements(s + x) == Ok(Parsed(p.value, p.rest + x))
    decreases |s|, 1
  {
    var v := ParseValue(s).value;
    var t := SkipSpace(v.rest);
    InsideIsOver(v.rest);
    ValueStays(s, x);
    SkipStays(v.rest, x);
    assert (t + x)[0] == t[0] && (t + x)[1..] == t[1..] + x;
    var v' := Parsed(v.value, v.rest + x);
    if t[0] == ']' {
      LastElementIs(s, v, t);
      LastElementIs(s + x, v', t + x);
    } else {
      var next := SkipSpace(t[1..]);
      var more := ParseElements(next).value;
      SkipStays(t[1..], x);
      ElementsStay(next, x);
      NextElementIs(s, v, t, more);
      NextElementIs(s + x, v', t + x, Parsed(more.value, more.rest + x));
    }
  }

  lemma MemberIs(s: string, key: Parsed<PyString>, v: Parsed<Value>)
    requires |s| > 0 && s[0] == '\"' && ParseChars(s[1..]) == Ok(key)
    requires SkipSpace(key.rest) != "" && SkipSpace(key.rest)[0] == ':'
    requires ParseValue(SkipSpace(SkipSpace(key.rest)[1..])) == Ok(v)
    ensures ParseMember(s) == Ok(Parsed(Field(key.value, v.value), v.rest))
  {
  }

  /** The parts of a member, followed by more text. */
  lemma PartsStay(s: string, x: string, key: Parsed<PyString>, t: string)
    requires |s| > 0 && s[0] == '\"' && ParseChars(s[1..]) == Ok(key)
    requires SkipSpace(key.rest) == t && t != "" && t[0] == ':' && SkipSpace(t[1..]) != ""
    ensures (s + x)[0] == '\"' && ParseChars((s + x)[1..]) == Ok(Parsed(key.value, key.rest + x))
    ensures SkipSpace(key.rest + x) == t + x && (t + x)[0] == ':'
    ensures SkipSpace((t + x)[1..]) == SkipSpace(t[1..]) + x
  {
    assert (s + x)[0] == s[0] && (s + x)[1..] == s[1..] + x;
    CharsStay(s[1..], x);
    SkipStays(key.rest, x);
    assert (t + x)[0] == t[0] && (t + x)[1..] == t[1..] + x;
    SkipStays(t[1..], x);
  }

  lemma {:induction false} MemberStays(s: string, x: string)
    requires ParseMember(s).Ok? && ParseMember(s).value.rest != "" && EndsNumber(ParseMember(s).value.rest)
    ensures var p := ParseMember(s).value; ParseMember(s + x) == Ok(Parsed(p.value, p.rest + x))
    decreases |s|, 1
  {
    var k := ParseChars(s[1..]).value;
    var t := SkipSpace(k.rest);
    var v := ParseValue(SkipSpace(t[1..])).value;
    assert SkipSpace(t[1..]) != "";
    PartsStay(s, x, k, t);
    ValueStays(SkipSpace(t[1..]), x);
    MemberIs(s + x, Parsed(k.value, k.rest + x), Parsed(v.value, v.rest + x));
  }

  lemma LastMemberIs(s: string, m: Parsed<Field>, t: string)
    requires ParseMember(s) == Ok(m) && SkipSpace(m.rest) == t && t != "" && t[0] == '}'
    ensures ParseMembers(s) == Ok(Parsed([m.value], t[1..]))
  {
  }

  lemma NextMemberIs(s: string, m: Parsed<Field>, t: string, more: Parsed<seq<Field>>)
    requires ParseMember(s) == Ok(m) && SkipSpace(m.rest) == t && t != "" && t[0] == ','
    requires ParseMembers(SkipSpace(t[1..])) == Ok(more)
    ensures ParseMembers(s) == Ok(Parsed([m.value] + more.value, more.rest))
  {
  }

  lemma {:induction false} MembersStay(s: string, x: string)
    requires ParseMembers(s).Ok?
    ensures var p := ParseMembers(s).value; ParseMembers(s + x) == Ok(Parsed(p.value, p.rest + x))
    decreases |s|, 2
  {
    var m := ParseMember(s).value;
    var t := SkipSpace(m.rest);
    InsideIsOver(m.rest);
    MemberStays(s, x);
    SkipStays(m.rest, x);
    assert (t + x)[0] == t[0] && (t + x)[1..] == t[1..] + x;
    var m' := Parsed(m.value, m.rest + x);
    if t[0] == '}' {
      LastMemberIs(s, m, t);
      LastMemberIs(s + x, m', t + x);
    } else {
      var next := SkipSpace(t[1..]);
      var more := ParseMembers(next).value;
      SkipStays(t[1..], x);
      MembersStay(next, x);
      NextMemberIs(s, m, t, more);
      NextMemberIs(s + x, m', t + x, Parsed(more.value, more.rest + x));
    }
  }

  // ---- main result ---------------------------------------------------------------

  /** Nothing that is cut off a printed object, not even at a space, reads as a value. */
  lemma CutObjectIsNoValue(fields: seq<Field>, n: nat)
    requires 0 < n < |Render(Obj(fields))|
    ensures Loads(Render(Obj(fields))[..n]).Err?
  {
    var whole := Render(Obj(fields));
    var s, x := whole[..n], whole[n..];
    assert s[0] == '{' && SkipSpace(s) == s && s + x == whole && whole + "" == whole;
    ObjRoundTrip(fields, "");
    if Loads(s).Ok? {
      ValueStays(s, x);
    }
  }
}
