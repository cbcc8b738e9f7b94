/**
 The two readers of debian/control agree on every well-formed file, through
 comments, folded lines and any number of stanzas.
 */
module ControlProofs {
  import opened Outcomes
  import opened Text
  import opened Control

  // ---- well-formed files -----------------------------------------------------------------

  /** Where a reader is: in a stanza or between two, and what it has seen so far. */
  datatype Place = Place(open: bool, continues: bool, depends: bool, packages: set<string>)

  const START := Place(false, false, false, {})

  /**
   What a line may be, given what came before: a continuation only after a field
   that can be folded; `Package` and `Depends` written flush left with their
   colon; a binary stanza starts with its `Package`, never seen before; one
   `Depends` a stanza.
   */
  predicate Tidy(line: string, m: Place) {
    if Blank(line) then true
    else if IsSpace(line[0]) then m.continues
    else
      && (KeyOf(line) == "Package" ==> OpensPackage(line) && !m.open && Strip(ValueOf(line)) !in m.packages)
      && (KeyOf(line) == "Depends" ==> OpensDepends(line) && !m.depends)
  }

  /** After the first binary stanza every stanza is one. */
  predicate InOrder(line: string, m: Place) {
    !Blank(line) && !IsSpace(line[0]) && !m.open && m.packages != {} ==> KeyOf(line) == "Package"
  }

  function Next(line: string, m: Place): Place {
    if Blank(line) then Place(false, false, false, m.packages)
    else if IsSpace(line[0]) then m
    else
      var key := KeyOf(line);
      Place(true, key != "" && key != "Package", m.depends || key == "Depends",
            m.packages + if key == "Package" then {Strip(ValueOf(line))} else {})
  }

  predicate TidyFrom(lines: seq<string>, m: Place) {
    |lines| > 0 ==> Tidy(lines[0], m) && TidyFrom(lines[1..], Next(lines[0], m))
  }

  predicate InOrderFrom(lines: seq<string>, m: Place) {
    |lines| > 0 ==> InOrder(lines[0], m) && InOrderFrom(lines[1..], Next(lines[0], m))
  }

  predicate TidyFile(lines: seq<string>) {
    TidyFrom(WithoutComments(lines), START)
  }

  predicate WellFormed(lines: seq<string>) {
    TidyFile(lines) && InOrderFrom(WithoutComments(lines), START)
  }

  // ---- single lines ---------------------------------------------------------------------

  lemma KeyIs(line: string, name: string)
    requires |name| > 0 && ':' !in name && !IsSpace(name[0]) && !IsSpace(name[|name| - 1])
    requires name + ":" <= line
    ensures KeyOf(line) == name && !IsSpace(line[0]) && !Blank(line)
  {
    assert line[|name|] == ':' && line[..|name|] == name;
    IndexIs(line, ':', |name|);
    assert line[0] == name[0];
    NotBlank(line);
  }

  lemma {:induction false} NotBlank(line: string)
    requires |line| > 0 && !IsSpace(line[0])
    ensures !Blank(line)
  {
    KeepsFirst(line);
  }

  lemma {:induction false} KeepsFirst(line: string)
    requires |line| > 0 && !IsSpace(line[0])
    ensures |StripRight(line)| > 0
  {
    if IsSpace(line[|line| - 1]) {
      KeepsFirst(line[..|line| - 1]);
    }
  }

  /** A line the drift gate takes for an opener has that key, and is not folded. */
  lemma Openers(line: string)
    ensures OpensPackage(line) ==> KeyOf(line) == "Package" && !IsSpace(line[0]) && !Blank(line) && !OpensDepends(line)
    ensures OpensDepends(line) ==> KeyOf(line) == "Depends" && !IsSpace(line[0]) && !Blank(line)
  {
    if OpensPackage(line) {
      assert "Package" + ":" == "Package:";
      KeyIs(line, "Package");
    }
    if OpensDepends(line) {
      assert "Depends" + ":" == "Depends:";
      KeyIs(line, "Depends");
    }
  }

  lemma {:induction false} CommentsDoNotMatter(lines: seq<string>, current: Stanza, key: Option<string>)
    requires key.Some? ==> key.value in current
    ensures StanzasFrom(lines, current, key) == StanzasFrom(WithoutComments(lines), current, key)
    decreases |lines|
  {
    if |lines| == 0 {
    } else if Comment(lines[0]) {
      CommentsDoNotMatter(lines[1..], current, key);
    } else {
      var kept := WithoutComments(lines);
      assert kept[0] == lines[0] && kept[1..] == WithoutComments(lines[1..]);
      if Blank(lines[0]) {
        CommentsDoNotMatter(lines[1..], if current == map[] then current else map[],
            if current == map[] then key else None);
      } else {
        var (next, nextKey) := FieldStep(lines[0], current, key);
        CommentsDoNotMatter(lines[1..], next, nextKey);
      }
    }
  }

  // ---- the first reader, stanza by stanza ---------------------------------------------------

  predicate IsFor(s: Stanza, package: string) {
    "Package" in s && s["Package"] == package
  }

  function DependsWords(s: Stanza): seq<string> {
    if "Depends" in s then Words(s["Depends"]) else []
  }

  /** The open stanza is what the place says it is. */
  predicate Fits(m: Place, current: Stanza, key: Option<string>) {
    && (m.open <==> current != map[])
    && (key.Some? ==> key.value in current)
    && (m.continues <==> key.Some? && key.value != "" && key.value != "Package")
    && (m.depends <==> "Depends" in current)
    && ("Package" in current ==> current["Package"] in m.packages)
  }

  predicate NoComments(lines: seq<string>) {
    forall i :: 0 <= i < |lines| ==> !Comment(lines[i])
  }

  /** One line that is neither blank nor a comment: the places stay in step. */
  lemma FieldFits(line: string, m: Place, current: Stanza, key: Option<string>)
    requires Fits(m, current, key) && Tidy(line, m) && !Blank(line)
    ensures var (next, nextKey) := FieldStep(line, current, key);
      && Fits(Next(line, m), next, nextKey) && Next(line, m).open
      && (IsSpace(line[0]) ==>
            m.continues && nextKey == key && next == current[key.value := current[key.value] + " " + Strip(line)])
      && (!IsSpace(line[0]) && m.open ==>
            KeyOf(line) != "Package" && next == current[KeyOf(line) := Strip(ValueOf(line))])
  {
    var (next, nextKey) := FieldStep(line, current, key);
    assert nextKey.value in next;
  }

  /** A package already behind is not met again. */
  lemma {:induction false} NotMetAgain(lines: seq<string>, package: string, m: Place, current: Stanza,
          key: Option<string>)
    requires NoComments(lines) && TidyFrom(lines, m) && Fits(m, current, key)
    requires package in m.packages && !IsFor(current, package)
    ensures forall s :: s in StanzasFrom(lines, current, key) ==> !IsFor(s, package)
    decreases |lines|
  {
    if |lines| == 0 {
    } else if Blank(lines[0]) {
      NotMetAgain(lines[1..], package, Next(lines[0], m), map[], if current == map[] then key else None);
    } else {
      FieldFits(lines[0], m, current, key);
      var (next, nextKey) := FieldStep(lines[0], current, key);
      NotMetAgain(lines[1..], package, Next(lines[0], m), next, nextKey);
    }
  }

  /** In the package's own stanza: that stanza comes out first, under its name, and the package is not met again. */
  lemma {:induction false} OwnStanzaFirst(lines: seq<string>, package: string, m: Place, current: Stanza,
          key: Option<string>)
    requires NoComments(lines) && TidyFrom(lines, m) && Fits(m, current, key) && IsFor(current, package)
    ensures var out := StanzasFrom(lines, current, key);
      |out| > 0 && IsFor(out[0], package) && forall i :: 0 < i < |out| ==> !IsFor(out[i], package)
    decreases |lines|
  {
    if |lines| == 0 {
    } else if Blank(lines[0]) {
      NotMetAgain(lines[1..], package, Next(lines[0], m), map[], None);
    } else {
      FieldFits(lines[0], m, current, key);
      var (next, nextKey) := FieldStep(lines[0], current, key);
      OwnStanzaFirst(lines[1..], package, Next(lines[0], m), next, nextKey);
    }
  }

  /** Once the Depends field is over, nothing in its stanza changes it. */
  lemma {:induction false} DependsKept(lines: seq<string>, m: Place, current: Stanza, key: Option<string>)
    requires NoComments(lines) && TidyFrom(lines, m) && Fits(m, current, key)
    requires m.open && "Depends" in current && key != Some("Depends")
    ensures var out := StanzasFrom(lines, current, key);
      |out| > 0 && DependsWords(out[0]) == DependsWords(current)
    decreases |lines|
  {
    if |lines| > 0 && !Blank(lines[0]) {
      FieldFits(lines[0], m, current, key);
      var (next, nextKey) := FieldStep(lines[0], current, key);
      DependsKept(lines[1..], Next(lines[0], m), next, nextKey);
    }
  }

  // ---- both readers, from the package's stanza on ---------------------------------------------

  /** What the drift gate still collects. */
  function Pieces(lines: seq<string>, package: string, collecting: bool, inField: bool): seq<string> {
    FieldPieces(PackageLines(lines, package, collecting), inField)
  }

  /** In order, the package contributes nothing more after its stanza, collecting or not. */
  lemma {:induction false} NothingAfter(lines: seq<string>, package: string, m: Place, collecting: bool, inField: bool)
    requires TidyFrom(lines, m) && InOrderFrom(lines, m) && package in m.packages
    requires (collecting ==> !m.open) && (m.continues ==> m.open)
    ensures Pieces(lines, package, collecting, inField) == []
    decreases |lines|
  {
    if |lines| > 0 {
      Openers(lines[0]);
      NothingAfter(lines[1..], package, Next(lines[0], m), collecting && Blank(lines[0]), inField);
    }
  }

  /** What the drift gate still collects after the end of the package's stanza, of which `lines` is the rest. */
  function StraysIn(lines: seq<string>, package: string, inField: bool): seq<string> {
    if |lines| == 0 then []
    else if Blank(lines[0]) then Pieces(lines[1..], package, true, inField)
    else if OpensDepends(lines[0]) then StraysIn(lines[1..], package, true)
    else if inField && !IsSpace(lines[0][0]) then []
    else StraysIn(lines[1..], package, inField)
  }

  /** The pieces of Depends collected outside the package's stanza. */
  function Strays(lines: seq<string>, package: string): seq<string> {
    if |lines| == 0 then []
    else if OpensPackage(lines[0]) && Strip(ValueOf(lines[0])) == package then StraysIn(lines[1..], package, false)
    else Strays(lines[1..], package)
  }

  /** What one line of the package's stanza adds inside its Depends field. */
  lemma CollectOne(lines: seq<string>, package: string)
    requires |lines| > 0 && !OpensPackage(lines[0]) && !OpensDepends(lines[0]) && !Blank(lines[0])
    ensures Pieces(lines, package, true, true)
        == if IsSpace(lines[0][0]) then [Strip(lines[0])] + Pieces(lines[1..], package, true, true) else []
  {
    var all := PackageLines(lines, package, true);
    assert all == [lines[0]] + PackageLines(lines[1..], package, true);
    assert all[1..] == PackageLines(lines[1..], package, true);
  }

  lemma BlankLine(lines: seq<string>, package: string, inField: bool)
    requires |lines| > 0 && Blank(lines[0]) && !OpensPackage(lines[0]) && !OpensDepends(lines[0])
    ensures Pieces(lines, package, true, inField) == Pieces(lines[1..], package, true, inField)
  {
    var all := PackageLines(lines, package, true);
    assert all == [lines[0]] + PackageLines(lines[1..], package, true);
    assert all[1..] == PackageLines(lines[1..], package, true);
  }

  /** A folded line adds its words to the field. */
  lemma FoldedLine(line: string, current: Stanza)
    requires "Depends" in current
    ensures DependsWords(current["Depends" := current["Depends"] + " " + Strip(line)])
      == DependsWords(current) + Words(Strip(line))
  {
    WordsApart(current["Depends"], ' ', Strip(line));
  }

  lemma AllWordsCons(x: string, rest: seq<string>)
    ensures AllWords([x] + rest) == Words(x) + AllWords(rest)
  {
    assert ([x] + rest)[1..] == rest;
  }

  /** Inside the Depends field: both readers collect the same words. */
  lemma {:induction false} InDepends(lines: seq<string>, package: string, m: Place, current: Stanza)
    requires NoComments(lines) && TidyFrom(lines, m) && IsFor(current, package)
    requires Fits(m, current, Some("Depends"))
    ensures var out := StanzasFrom(lines, current, Some("Depends"));
      |out| > 0 && DependsWords(current) + AllWords(Pieces(lines, package, true, true))
                == DependsWords(out[0]) + AllWords(StraysIn(lines, package, true))
    decreases |lines|
  {
    if |lines| == 0 {
    } else if Blank(lines[0]) {
      Openers(lines[0]);
      BlankLine(lines, package, true);
    } else if IsSpace(lines[0][0]) {
      var next := current["Depends" := current["Depends"] + " " + Strip(lines[0])];
      FieldFits(lines[0], m, current, Some("Depends"));
      InDepends(lines[1..], package, m, next);
      Openers(lines[0]);
      CollectOne(lines, package);
      FoldedLine(lines[0], current);
      AllWordsCons(Strip(lines[0]), Pieces(lines[1..], package, true, true));
    } else {
      DependsEnds(lines, package, m, current);
    }
  }

  /** The next field ends Depends for both readers. */
  lemma DependsEnds(lines: seq<string>, package: string, m: Place, current: Stanza)
    requires NoComments(lines) && TidyFrom(lines, m) && IsFor(current, package)
    requires Fits(m, current, Some("Depends")) && |lines| > 0 && !Blank(lines[0]) && !IsSpace(lines[0][0])
    ensures var out := StanzasFrom(lines, current, Some("Depends"));
      && |out| > 0 && DependsWords(out[0]) == DependsWords(current)
      && Pieces(lines, package, true, true) == [] && StraysIn(lines, package, true) == []
  {
    FieldFits(lines[0], m, current, Some("Depends"));
    var (next, nextKey) := FieldStep(lines[0], current, Some("Depends"));
    DependsKept(lines[1..], Next(lines[0], m), next, nextKey);
    Openers(lines[0]);
    CollectOne(lines, package);
  }

  /** In the package's stanza before its Depends. */
  lemma {:induction false} BeforeDepends(lines: seq<string>, package: string, m: Place, current: Stanza,
          key: Option<string>)
    requires NoComments(lines) && TidyFrom(lines, m) && Fits(m, current, key)
    requires IsFor(current, package) && "Depends" !in current
    ensures var out := StanzasFrom(lines, current, key);
      |out| > 0 && AllWords(Pieces(lines, package, true, false))
          == DependsWords(out[0]) + AllWords(StraysIn(lines, package, false))
    decreases |lines|
  {
    if |lines| == 0 {
      return;
    }
    var line, rest := lines[0], lines[1..];
    Openers(line);
    if Blank(line) {
      BlankLine(lines, package, false);
      return;
    }
    FieldFits(line, m, current, key);
    var (next, nextKey) := FieldStep(line, current, key);
    assert PackageLines(lines, package, true) == [line] + PackageLines(rest, package, true);
    if OpensDepends(line) {
      InDepends(rest, package, Next(line, m), next);
      WordsStrip(ValueOf(line));
    } else {
      BeforeDepends(rest, package, Next(line, m), next, nextKey);
    }
  }

  /** The two readers' answers for one package: the second adds the words of the strays. */
  predicate Answers(stanzas: seq<Stanza>, pieces: seq<string>, strays: seq<string>, package: string) {
    && (forall s :: s in stanzas && IsFor(s, package) ==> AllWords(pieces) == DependsWords(s) + AllWords(strays))
    && ((forall s :: s in stanzas ==> !IsFor(s, package)) ==> pieces == [])
  }

  /** One stanza, the first, is the package's. */
  lemma OwnAnswers(stanzas: seq<Stanza>, pieces: seq<string>, strays: seq<string>, package: string)
    requires |stanzas| > 0 && IsFor(stanzas[0], package)
    requires forall i :: 0 < i < |stanzas| ==> !IsFor(stanzas[i], package)
    requires AllWords(pieces) == DependsWords(stanzas[0]) + AllWords(strays)
    ensures Answers(stanzas, pieces, strays, package)
  {
    assert stanzas[0] in stanzas;
  }

  /** At the package's `Package:` line. */
  lemma AnswersAtOwn(lines: seq<string>, package: string, m: Place, current: Stanza, key: Option<string>)
    requires NoComments(lines) && TidyFrom(lines, m) && Fits(m, current, key) && package !in m.packages
    requires |lines| > 0 && !Blank(lines[0]) && package in Next(lines[0], m).packages
    ensures Answers(StanzasFrom(lines, current, key), Pieces(lines, package, false, false), Strays(lines, package),
      package)
  {
    var line, rest := lines[0], lines[1..];
    FieldFits(line, m, current, key);
    var (next, nextKey) := FieldStep(line, current, key);
    OwnStanzaFirst(rest, package, Next(line, m), next, nextKey);
    BeforeDepends(rest, package, Next(line, m), next, nextKey);
    OwnLine(lines, package);
    OwnAnswers(StanzasFrom(rest, next, nextKey), Pieces(rest, package, true, false), StraysIn(rest, package, false),
        package);
  }

  lemma OwnLine(lines: seq<string>, package: string)
    requires |lines| > 0 && OpensPackage(lines[0]) && Strip(ValueOf(lines[0])) == package
    ensures Pieces(lines, package, false, false) == Pieces(lines[1..], package, true, false)
  {
    Openers(lines[0]);
    assert PackageLines(lines, package, false) == [lines[0]] + PackageLines(lines[1..], package, true);
  }

  /** A stanza in front that is not the package's. */
  lemma AnswersBehind(current: Stanza, stanzas: seq<Stanza>, pieces: seq<string>, strays: seq<string>, package: string)
    requires Answers(stanzas, pieces, strays, package) && !IsFor(current, package)
    ensures Answers([current] + stanzas, pieces, strays, package)
  {
    assert forall s :: s in stanzas ==> s in [current] + stanzas;
  }

  /** A line before the package's stanza that is not the package's own contributes nothing. */
  lemma SkippedLine(lines: seq<string>, package: string)
    requires |lines| > 0 && !(OpensPackage(lines[0]) && Strip(ValueOf(lines[0])) == package)
    ensures Pieces(lines, package, false, false) == Pieces(lines[1..], package, false, false)
    ensures Strays(lines, package) == Strays(lines[1..], package)
  {
  }

  /** Before the package's stanza. */
  lemma {:induction false} AnswersAhead(lines: seq<string>, package: string, m: Place, current: Stanza,
          key: Option<string>)
    requires NoComments(lines) && TidyFrom(lines, m) && Fits(m, current, key) && package !in m.packages
    ensures Answers(StanzasFrom(lines, current, key), Pieces(lines, package, false, false), Strays(lines, package),
      package)
    decreases |lines|
  {
    if |lines| == 0 {
      return;
    }
    var line, rest := lines[0], lines[1..];
    Openers(line);
    if Blank(line) {
      SkippedLine(lines, package);
      AnswersAhead(rest, package, Next(line, m), map[], if current == map[] then key else None);
      if current != map[] {
        AnswersBehind(current, StanzasFrom(rest, map[], None), Pieces(lines, package, false, false),
            Strays(lines, package), package);
      }
      return;
    }
    if package in Next(line, m).packages {
      AnswersAtOwn(lines, package, m, current, key);
    } else {
      FieldFits(line, m, current, key);
      var (next, nextKey) := FieldStep(line, current, key);
      SkippedLine(lines, package);
      AnswersAhead(rest, package, Next(line, m), next, nextKey);
    }
  }

  // ---- main results -----------------------------------------------------------------------------

  /**
   On every tidy control file, for every package: the drift gate's Depends has
   the words of the Depends of the package's stanza, in order, and behind them
   those of the Depends it collects from stanzas that are not the package's.  So
   the readers agree exactly when those hold no word.
   */
  lemma ReadersDiffer(lines: seq<string>, package: string)
    requires TidyFile(lines)
    ensures forall s :: s in Stanzas(lines) && IsFor(s, package) ==>
      && Words(DependsOf(lines, package)) == DependsWords(s) + AllWords(Strays(WithoutComments(lines), package))
      && (Words(DependsOf(lines, package)) == DependsWords(s)
          <==> AllWords(Strays(WithoutComments(lines), package)) == [])
    ensures (forall s :: s in Stanzas(lines) ==> !IsFor(s, package)) ==> DependsOf(lines, package) == ""
  {
    var kept := WithoutComments(lines);
    CommentsDoNotMatter(lines, map[], None);
    AnswersAhead(kept, package, START, map[], None);
    WordsJoin(' ', Pieces(kept, package, false, false));
  }

  lemma {:induction false} NoStraysIn(lines: seq<string>, package: string, m: Place, inField: bool)
    requires TidyFrom(lines, m) && InOrderFrom(lines, m) && package in m.packages && m.open
    ensures StraysIn(lines, package, inField) == []
    decreases |lines|
  {
    if |lines| > 0 {
      if Blank(lines[0]) {
        NothingAfter(lines[1..], package, Next(lines[0], m), true, inField);
      } else {
        NoStraysIn(lines[1..], package, Next(lines[0], m), inField || OpensDepends(lines[0]));
      }
    }
  }

  lemma {:induction false} NoStrays(lines: seq<string>, package: string, m: Place)
    requires TidyFrom(lines, m) && InOrderFrom(lines, m)
    ensures Strays(lines, package) == []
    decreases |lines|
  {
    if |lines| > 0 {
      Openers(lines[0]);
      if OpensPackage(lines[0]) && Strip(ValueOf(lines[0])) == package {
        NoStraysIn(lines[1..], package, Next(lines[0], m), false);
      } else {
        NoStrays(lines[1..], package, Next(lines[0], m));
      }
    }
  }

  /** On every well-formed control file the readers agree about every package. */
  lemma ReadersAgree(lines: seq<string>, package: string)
    requires WellFormed(lines)
    ensures forall s :: s in Stanzas(lines) && IsFor(s, package) ==> Words(DependsOf(lines, package)) == DependsWords(s)
    ensures (forall s :: s in Stanzas(lines) ==> !IsFor(s, package)) ==> DependsOf(lines, package) == ""
  {
    ReadersDiffer(lines, package);
    NoStrays(WithoutComments(lines), package, START);
  }

  /** Each package is named by at most one of the stanzas. */
  predicate NamedOnce(stanzas: seq<Stanza>) {
    forall i, j :: 0 <= i < j < |stanzas| && "Package" in stanzas[i] ==> !IsFor(stanzas[j], stanzas[i]["Package"])
  }

  lemma NamedOnceGrows(current: Stanza, rest: seq<Stanza>)
    requires NamedOnce(rest)
    requires "Package" in current ==> forall s :: s in rest ==> !IsFor(s, current["Package"])
    ensures NamedOnce([current] + rest)
  {
    var out := [current] + rest;
    forall i, j | 0 <= i < j < |out| && "Package" in out[i]
      ensures !IsFor(out[j], out[i]["Package"])
    {
      assert out[j] == rest[j - 1] && rest[j - 1] in rest;
    }
  }

  /** A tidy file names each package in at most one stanza. */
  lemma OneStanzaEach(lines: seq<string>)
    requires TidyFile(lines)
    ensures NamedOnce(Stanzas(lines))
  {
    CommentsDoNotMatter(lines, map[], None);
    PackagesDistinct(WithoutComments(lines), START, map[], None);
  }

  lemma {:induction false} PackagesDistinct(lines: seq<string>, m: Place, current: Stanza, key: Option<string>)
    requires NoComments(lines) && TidyFrom(lines, m) && Fits(m, current, key)
    ensures NamedOnce(StanzasFrom(lines, current, key))
    decreases |lines|
  {
    if |lines| == 0 {
    } else if Blank(lines[0]) {
      PackagesDistinct(lines[1..], Next(lines[0], m), map[], if current == map[] then key else None);
      if current != map[] {
        if "Package" in current {
          NotMetAgain(lines[1..], current["Package"], Next(lines[0], m), map[], None);
        }
        NamedOnceGrows(current, StanzasFrom(lines[1..], map[], None));
      }
    } else {
      FieldFits(lines[0], m, current, key);
      var (next, nextKey) := FieldStep(lines[0], current, key);
      PackagesDistinct(lines[1..], Next(lines[0], m), next, nextKey);
    }
  }

  /**
   The smallest file on which they disagree: the drift gate does not stop at a
   blank line, and reads a later stanza's Depends.
   */
  lemma StrayStanzaMisleads(first: string, other: string)
    requires OpensPackage(first) && OpensDepends(other)
    ensures Stanzas([first, "", other]) == [map["Package" := Strip(ValueOf(first))],
      map["Depends" := Strip(ValueOf(other))]]
    ensures DependsOf([first, "", other], Strip(ValueOf(first))) == ValueOf(other)
  {
    var package: Stanza, depends: Stanza := map["Package" := Strip(ValueOf(first))],
        map["Depends" := Strip(ValueOf(other))];
    Openers(first);
    Openers(other);
    assert first[0] == 'P' && other[0] == 'D' && !OpensPackage(other);
    assert [first, "", other][1..] == ["", other] && ["", other][1..] == [other] && [other][1..] == [];
    assert FieldStep(first, map[], None) == (package, Some("Package"));
    assert FieldStep(other, map[], None) == (depends, Some("Depends"));
    assert "Package" in package && "Depends" in depends;
    StrayStanzas(first, other, package, depends);
    StrayPieces(first, other);
  }

  lemma StrayStanzas(first: string, other: string, package: Stanza, depends: Stanza)
    requires !Comment(first) && !Comment(other) && !Blank(first) && !Blank(other)
    requires "Package" in package && "Depends" in depends
    requires FieldStep(first, map[], None) == (package, Some("Package"))
    requires FieldStep(other, map[], None) == (depends, Some("Depends"))
    ensures Stanzas([first, "", other]) == [package, depends]
  {
    assert [first, "", other][1..] == ["", other] && ["", other][1..] == [other] && [other][1..] == [];
    assert StanzasFrom([], depends, Some("Depends")) == [depends];
    assert StanzasFrom([other], map[], None) == [depends];
    assert StanzasFrom(["", other], package, Some("Package")) == [package] + [depends];
  }

  lemma StrayPieces(first: string, other: string)
    requires OpensPackage(first) && OpensDepends(other) && !OpensPackage(other) && !Comment(first) && !Comment(other)
    ensures DependsOf([first, "", other], Strip(ValueOf(first))) == ValueOf(other)
  {
    var name, lines := Strip(ValueOf(first)), [first, "", other];
    assert lines[1..] == ["", other] && lines[1..][1..] == [other] && [other][1..] == [];
    assert WithoutComments([other]) == [other];
    assert WithoutComments(["", other]) == ["", other];
    assert WithoutComments(lines) == lines;
    assert PackageLines([other], name, true) == [other];
    assert PackageLines(["", other], name, true) == ["", other];
    assert PackageLines(lines, name, false) == lines;
    Openers(first);
    assert FieldPieces([other], false) == [ValueOf(other)];
    assert FieldPieces(["", other], false) == [ValueOf(other)];
  }
}
