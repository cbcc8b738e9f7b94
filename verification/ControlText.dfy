/** Control files as they are written, and what the stanza parser reads out of them. */
module ControlText {
  import opened Outcomes
  import opened Text
  import opened Control

  /** A field: its name, the text on its line, and the texts of its continuation lines. */
  datatype Written = Written(name: string, first: string, more: seq<string>)

  predicate Stripped(s: string) {
    s == "" || (!IsSpace(s[0]) && !IsSpace(s[|s| - 1]))
  }

  predicate Proper(f: Written) {
    && f.name != "" && Stripped(f.name) && ':' !in f.name && f.name[0] != '#' && Stripped(f.first)
    && forall i :: 0 <= i < |f.more| ==> f.more[i] != "" && Stripped(f.more[i])
  }

  predicate AllProper(fields: seq<Written>) {
    forall i :: 0 <= i < |fields| ==> Proper(fields[i])
  }

  function FirstLine(f: Written): string {
    f.name + ":" + (" " + f.first)
  }

  function MoreLines(more: seq<string>): seq<string> {
    if more == [] then [] else [" " + more[0]] + MoreLines(more[1..])
  }

  /** The lines of a stanza. */
  function StanzaLines(fields: seq<Written>): seq<string> {
    if fields == [] then []
    else [FirstLine(fields[0])] + MoreLines(fields[0].more) + StanzaLines(fields[1..])
  }

  /** The lines of a file: the stanzas, each with a blank line behind it. */
  function FileLines(stanzas: seq<seq<Written>>): seq<string> {
    if stanzas == [] then [] else StanzaLines(stanzas[0]) + [""] + FileLines(stanzas[1..])
  }

  /** The value of a field: its texts with single spaces between them. */
  function Continued(value: string, more: seq<string>): string
    decreases |more|
  {
    if more == [] then value else Continued(value + " " + more[0], more[1..])
  }

  /** The fields put into a stanza one after the other; of two with one name the later counts. */
  function Filled(stanza: Stanza, fields: seq<Written>): Stanza
    decreases |fields|
  {
    if fields == [] then stanza
    else Filled(stanza[fields[0].name := Continued(fields[0].first, fields[0].more)], fields[1..])
  }

  function Contents(stanzas: seq<seq<Written>>): seq<Stanza> {
    if stanzas == [] then [] else [Filled(map[], stanzas[0])] + Contents(stanzas[1..])
  }

  // ---- one line ---------------------------------------------------------------------------

  lemma StripBehindSpace(s: string)
    requires Stripped(s)
    ensures Strip(" " + s) == s && Strip(s) == s
  {
    var line := " " + s;
    assert line[0] == ' ' && line[1..] == s;
    assert StripLeft(line) == StripLeft(s) == s && StripRight(s) == s;
  }

  lemma NotBlank(line: string, i: nat)
    requires i < |line| && !IsSpace(line[i])
    ensures !Blank(line)
  {
    var before, behind := StripIs(line);
  }

  lemma FirstLineIs(f: Written)
    requires Proper(f)
    ensures var line := FirstLine(f);
      && !Comment(line) && !Blank(line) && |line| > 0 && !IsSpace(line[0])
      && KeyOf(line) == f.name && Strip(ValueOf(line)) == f.first
  {
    var line := FirstLine(f);
    CutAtColon(f.name, " " + f.first);
    StripBehindSpace(f.name);
    StripBehindSpace(f.first);
    assert line[0] == f.name[0];
    NotBlank(line, 0);
  }

  lemma MoreLineIs(text: string)
    requires text != "" && Stripped(text)
    ensures var line := " " + text;
      !Comment(line) && !Blank(line) && |line| > 0 && IsSpace(line[0]) && Strip(line) == text
  {
    StripBehindSpace(text);
    assert (" " + text)[1] == text[0];
    NotBlank(" " + text, 1);
  }

  /** A comment starts with `#`, and a blank line holds white space only. */
  lemma LinesSkipped(line: string)
    ensures Comment(line) <==> "#" <= line
    ensures Blank(line) <==> forall i :: 0 <= i < |line| ==> IsSpace(line[i])
  {
    var before, behind := StripIs(line);
  }

  // ---- the parser --------------------------------------------------------------------------

  lemma {:induction false} MoreParsed(more: seq<string>, rest: seq<string>, current: Stanza, name: string)
    requires name != "" && name in current && forall i :: 0 <= i < |more| ==> more[i] != "" && Stripped(more[i])
    ensures StanzasFrom(MoreLines(more) + rest, current, Some(name))
         == StanzasFrom(rest, current[name := Continued(current[name], more)], Some(name))
  {
    var lines := MoreLines(more) + rest;
    if more == [] {
      assert lines == rest && current[name := current[name]] == current;
    } else {
      MoreLineIs(more[0]);
      assert lines[0] == " " + more[0] && lines[1..] == MoreLines(more[1..]) + rest;
      var next := current[name := current[name] + " " + more[0]];
      MoreParsed(more[1..], rest, next, name);
      assert next[name := Continued(next[name], more[1..])] == current[name := Continued(current[name], more)];
    }
  }

  lemma LineParsed(line: string, rest: seq<string>, current: Stanza, key: Option<string>)
    requires (key.Some? ==> key.value in current) && !Comment(line) && !Blank(line) && !Continues(line, key)
    ensures StanzasFrom([line] + rest, current, key)
         == StanzasFrom(rest, current[KeyOf(line) := Strip(ValueOf(line))], Some(KeyOf(line)))
  {
    assert ([line] + rest)[1..] == rest;
  }

  lemma FieldParsed(f: Written, rest: seq<string>, current: Stanza, key: Option<string>)
    requires Proper(f) && (key.Some? ==> key.value in current)
    ensures StanzasFrom([FirstLine(f)] + (MoreLines(f.more) + rest), current, key)
         == StanzasFrom(rest, current[f.name := Continued(f.first, f.more)], Some(f.name))
  {
    FirstLineIs(f);
    LineParsed(FirstLine(f), MoreLines(f.more) + rest, current, key);
    var next := current[f.name := f.first];
    MoreParsed(f.more, rest, next, f.name);
    assert next[f.name := Continued(f.first, f.more)] == current[f.name := Continued(f.first, f.more)];
  }

  lemma {:induction false} FieldsParsed(fields: seq<Written>, rest: seq<string>, current: Stanza, key: Option<string>)
    requires AllProper(fields) && (key.Some? ==> key.value in current)
    ensures var last := if fields == [] then key else Some(fields[|fields| - 1].name);
      && (last.Some? ==> last.value in Filled(current, fields))
      && StanzasFrom(StanzaLines(fields) + rest, current, key) == StanzasFrom(rest, Filled(current, fields), last)
  {
    if fields == [] {
      assert StanzaLines(fields) + rest == rest;
    } else {
      var f, later := fields[0], StanzaLines(fields[1..]) + rest;
      assert StanzaLines(fields) + rest == [FirstLine(f)] + (MoreLines(f.more) + later);
      FieldParsed(f, later, current, key);
      FieldsParsed(fields[1..], rest, current[f.name := Continued(f.first, f.more)], Some(f.name));
    }
  }

  lemma {:induction false} FilledIsFilled(stanza: Stanza, fields: seq<Written>)
    requires fields != []
    ensures Filled(stanza, fields) != map[]
    decreases |fields|
  {
    var next := stanza[fields[0].name := Continued(fields[0].first, fields[0].more)];
    assert fields[0].name in next;
    if |fields| > 1 {
      FilledIsFilled(next, fields[1..]);
    }
  }

  /** A written file is read as the stanzas that were written. */
  lemma {:induction false} WrittenIsParsed(stanzas: seq<seq<Written>>)
    requires forall i :: 0 <= i < |stanzas| ==> stanzas[i] != [] && AllProper(stanzas[i])
    ensures Stanzas(FileLines(stanzas)) == Contents(stanzas)
  {
    if stanzas != [] {
      var fields, rest := stanzas[0], [""] + FileLines(stanzas[1..]);
      assert FileLines(stanzas) == StanzaLines(fields) + rest;
      FieldsParsed(fields, rest, map[], None);
      FilledIsFilled(map[], fields);
      assert rest[1..] == FileLines(stanzas[1..]);
      WrittenIsParsed(stanzas[1..]);
    }
  }
}
