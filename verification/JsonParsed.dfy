/** What the parser can produce: distinct keys, and never a split surrogate pair. */
module JsonParsed {
  import opened Json
  import opened JsonCanonical

  lemma PutKeepsUnique(fields: seq<Field>, key: PyString, value: Value)
    requires UniqueKeys(fields)
    ensures UniqueKeys(Put(fields, key, value))
  {
  }

  lemma {:induction false} DictOfUnique(pairs: seq<Field>)
    ensures UniqueKeys(DictOf(pairs))
    ensures forall i :: 0 <= i < |DictOf(pairs)| ==> DictOf(pairs)[i] in pairs
  {
    if |pairs| > 0 {
      var init, last := pairs[..|pairs| - 1], pairs[|pairs| - 1];
      DictOfUnique(init);
      PutKeepsUnique(DictOf(init), last.key, last.value);
      assert forall x :: x in init ==> x in pairs;
      assert last == Field(last.key, last.value) && last in pairs;
    }
  }

  /** A high surrogate is only produced when no low surrogate can be parsed behind it. */
  lemma HighThenNotLow(s: string)
    requires |s| > 0 && ParseChar(s).Ok? && High(ParseChar(s).value.value)
    ensures var rest := ParseChar(s).value.rest;
      |rest| > 0 && ParseChar(rest).Ok? ==> !Low(ParseChar(rest).value.value)
  {
    assert s[0] == '\\' && |s| >= 6;
    var rest := ParseChar(s).value.rest;
    assert rest == s[6..];
  }

  lemma {:induction false} CharsNoSplit(s: string)
    requires ParseChars(s).Ok?
    ensures NoSplit(ParseChars(s).value.value)
    decreases |s|
  {
    if s[0] != '\"' {
      var c := ParseChar(s).value;
      var tail := ParseChars(c.rest).value.value;
      CharsNoSplit(c.rest);
      if High(c.value) {
        HighThenNotLow(s);
      }
      var all := [c.value] + tail;
      forall i | 0 <= i < |all| - 1
        ensures !(High(all[i]) && Low(all[i + 1]))
      {
        if i > 0 {
          assert all[i] == tail[i - 1] && all[i + 1] == tail[i];
        } else if |c.rest| > 0 && c.rest[0] != '\"' {
          assert tail[0] == ParseChar(c.rest).value.value;
        }
      }
    }
  }

  predicate Plain(v: Value) {
    WellFormed(v) && NoSplitPairs(v)
  }

  lemma {:induction false} ValueIsPlain(s: string)
    requires ParseValue(s).Ok?
    ensures Plain(ParseValue(s).value.value)
    decreases |s|, 0
  {
    if s[0] == '\"' {
      CharsNoSplit(s[1..]);
    } else if s[0] == '{' {
      var t := SkipSpace(s[1..]);
      if !(|t| > 0 && t[0] == '}') {
        MembersArePlain(t);
        DictOfUnique(ParseMembers(t).value.value);
      }
    } else if s[0] == '[' {
      var t := SkipSpace(s[1..]);
      if !(|t| > 0 && t[0] == ']') {
        ElementsArePlain(t);
      }
    }
  }

  lemma {:induction false} ElementsArePlain(s: string)
    requires ParseElements(s).Ok?
    ensures forall i :: 0 <= i < |ParseElements(s).value.value| ==> Plain(ParseElements(s).value.value[i])
    decreases |s|, 1
  {
    ValueIsPlain(s);
    var t := SkipSpace(ParseValue(s).value.rest);
    if t[0] != ']' {
      ElementsArePlain(SkipSpace(t[1..]));
    }
  }

  lemma {:induction false} MembersArePlain(s: string)
    requires ParseMembers(s).Ok?
    ensures forall x :: x in ParseMembers(s).value.value ==> NoSplit(x.key) && Plain(x.value)
    decreases |s|, 1
  {
    var m := ParseMember(s).value;
    CharsNoSplit(s[1..]);
    ValueIsPlain(SkipSpace(SkipSpace(ParseChars(s[1..]).value.rest)[1..]));
    var t := SkipSpace(m.rest);
    if t[0] != '}' {
      MembersArePlain(SkipSpace(t[1..]));
    }
  }

  /** Whatever a ledger line parses to has distinct keys and no split surrogate pair. */
  lemma LoadsIsPlain(text: string)
    requires Loads(text).Ok?
    ensures WellFormed(Loads(text).value) && NoSplitPairs(Loads(text).value)
  {
    ValueIsPlain(SkipSpace(text));
  }
}
