/**
 debian/control, read twice: the ship-list checker builds every stanza, the
 drift gate collects one field of one package.
 */
module Control {
  import opened Outcomes
  import opened Text

  type Stanza = map<string, string>

  predicate Comment(line: string) {
    |line| > 0 && line[0] == '#'
  }

  predicate Blank(line: string) {
    Strip(line) == ""
  }

  /** The text before the first colon, stripped, and the text after it. */
  function KeyOf(line: string): string {
    Strip(line[..IndexOf(line, ':')])
  }

  function ValueOf(line: string): string {
    var n := IndexOf(line, ':');
    if n < |line| then line[n + 1..] else ""
  }

  /** A line is cut at its first colon; further colons belong to the value. */
  lemma CutAtColon(name: string, rest: string)
    requires ':' !in name
    ensures KeyOf(name + ":" + rest) == Strip(name) && ValueOf(name + ":" + rest) == rest
    ensures KeyOf(name) == Strip(name) && ValueOf(name) == ""
  {
    var line := name + ":" + rest;
    assert line[..|name|] == name && line[|name| + 1..] == rest && name[..|name|] == name;
    IndexIs(line, ':', |name|);
  }

  function WithoutComments(lines: seq<string>): (kept: seq<string>)
    ensures forall i :: 0 <= i < |kept| ==> !Comment(kept[i])
  {
    if |lines| == 0 then []
    else if Comment(lines[0]) then WithoutComments(lines[1..])
    else [lines[0]] + WithoutComments(lines[1..])
  }

  // ---- the ship-list checker's parser ----------------------------------------------------

  /** A line continues the field `key`; the empty key is no key. */
  predicate Continues(line: string, key: Option<string>) {
    |line| > 0 && IsSpace(line[0]) && key.Some? && key.value != ""
  }

  /** The open stanza and field after one line that is neither blank nor a comment. */
  function FieldStep(line: string, current: Stanza, key: Option<string>): (Stanza, Option<string>)
    requires key.Some? ==> key.value in current
  {
    if Continues(line, key) then (current[key.value := current[key.value] + " " + Strip(line)], key)
    else (current[KeyOf(line) := Strip(ValueOf(line))], Some(KeyOf(line)))
  }

  /** The stanzas still to come, with `current` open. */
  function StanzasFrom(lines: seq<string>, current: Stanza, key: Option<string>): seq<Stanza>
    requires key.Some? ==> key.value in current
    decreases |lines|
  {
    if |lines| == 0 then (if current == map[] then [] else [current])
    else if Comment(lines[0]) then StanzasFrom(lines[1..], current, key)
    else if Blank(lines[0]) then
      if current == map[] then StanzasFrom(lines[1..], current, key)
      else [current] + StanzasFrom(lines[1..], map[], None)
    else
      var (next, nextKey) := FieldStep(lines[0], current, key);
      StanzasFrom(lines[1..], next, nextKey)
  }

  function Stanzas(lines: seq<string>): seq<Stanza> {
    StanzasFrom(lines, map[], None)
  }

  method ParseControl(lines: seq<string>) returns (stanzas: seq<Stanza>)
    ensures stanzas == Stanzas(lines)
  {
    stanzas := [];
    var current: Stanza := map[];
    var key: Option<string> := None;
    for i := 0 to |lines|
      invariant key.Some? ==> key.value in current
      invariant stanzas + StanzasFrom(lines[i..], current, key) == Stanzas(lines)
    {
      assert lines[i..][1..] == lines[i + 1..];
      if Comment(lines[i]) {
        continue;
      }
      if Blank(lines[i]) {
        if current != map[] {
          assert stanzas + ([current] + StanzasFrom(lines[i + 1..], map[], None))
              == stanzas + [current] + StanzasFrom(lines[i + 1..], map[], None);
          stanzas := stanzas + [current];
          current, key := map[], None;
        }
        continue;
      }
      if Continues(lines[i], key) {
        current := current[key.value := current[key.value] + " " + Strip(lines[i])];
        continue;
      }
      key := Some(KeyOf(lines[i]));
      current := current[key.value := Strip(ValueOf(lines[i]))];
    }
    if current != map[] {
      stanzas := stanzas + [current];
    }
  }

  // ---- the drift gate's reader --------------------------------------------------------------

  predicate OpensPackage(line: string) {
    "Package:" <= line
  }

  predicate OpensDepends(line: string) {
    "Depends:" <= line
  }

  predicate Indented(line: string) {
    |line| > 0 && IsSpace(line[0]) && !Blank(line)
  }

  predicate Collecting(line: string, package: string, collecting: bool) {
    if OpensPackage(line) then Strip(ValueOf(line)) == package else collecting
  }

  /** The lines from the package's `Package:` line to the next one with another name. */
  function PackageLines(lines: seq<string>, package: string, collecting: bool): seq<string> {
    if |lines| == 0 then []
    else if Collecting(lines[0], package, collecting) then [lines[0]] + PackageLines(lines[1..], package, true)
    else PackageLines(lines[1..], package, false)
  }

  /** The pieces of `Depends` still to come. */
  function FieldPieces(stanza: seq<string>, inField: bool): seq<string> {
    if |stanza| == 0 then []
    else if OpensDepends(stanza[0]) then [ValueOf(stanza[0])] + FieldPieces(stanza[1..], true)
    else if inField && Indented(stanza[0]) then
      [Strip(stanza[0])] + FieldPieces(stanza[1..], true)
    else if inField && !Blank(stanza[0]) then []
    else FieldPieces(stanza[1..], inField)
  }

  function DependsOf(lines: seq<string>, package: string): string {
    Join(' ', FieldPieces(PackageLines(WithoutComments(lines), package, false), false))
  }

  method DependsField(text: seq<string>, package: string) returns (depends: string)
    ensures depends == DependsOf(text, package)
  {
    var lines := DropComments(text);
    var stanza := CollectPackage(lines, package);
    var field := CollectField(stanza);
    return Join(' ', field);
  }

  method DropComments(text: seq<string>) returns (lines: seq<string>)
    ensures lines == WithoutComments(text)
  {
    lines := [];
    for i := 0 to |text|
      invariant lines + WithoutComments(text[i..]) == WithoutComments(text)
    {
      assert text[i..][1..] == text[i + 1..];
      if !Comment(text[i]) {
        Regroup(lines, text[i], WithoutComments(text[i + 1..]));
        lines := lines + [text[i]];
      }
    }
  }

  method CollectPackage(lines: seq<string>, package: string) returns (stanza: seq<string>)
    ensures stanza == PackageLines(lines, package, false)
  {
    var collecting := false;
    stanza := [];
    for i := 0 to |lines|
      invariant stanza + PackageLines(lines[i..], package, collecting) == PackageLines(lines, package, false)
    {
      assert lines[i..][1..] == lines[i + 1..];
      collecting := Collecting(lines[i], package, collecting);
      if collecting {
        Regroup(stanza, lines[i], PackageLines(lines[i + 1..], package, true));
        stanza := stanza + [lines[i]];
      }
    }
  }

  method CollectField(stanza: seq<string>) returns (field: seq<string>)
    ensures field == FieldPieces(stanza, false)
  {
    var inField := false;
    field := [];
    for i := 0 to |stanza|
      invariant field + FieldPieces(stanza[i..], inField) == FieldPieces(stanza, false)
    {
      var line := stanza[i];
      assert stanza[i..][1..] == stanza[i + 1..];
      if OpensDepends(line) {
        Regroup(field, ValueOf(line), FieldPieces(stanza[i + 1..], true));
        inField := true;
        field := field + [ValueOf(line)];
      } else if inField && Indented(line) {
        Regroup(field, Strip(line), FieldPieces(stanza[i + 1..], true));
        field := field + [Strip(line)];
      } else if inField && !Blank(line) {
        break;
      }
    }
  }

  lemma Regroup(before: seq<string>, x: string, after: seq<string>)
    ensures before + ([x] + after) == before + [x] + after
  {
  }
}
