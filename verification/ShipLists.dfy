/**
 Ship lists: what each package's install lines put where, whether every payload
 file is shipped or excused, and whether the built packages hold what was declared.
 */
module ShipLists {
  import opened Outcomes
  import opened Text

  /** A path, segment by segment, relative to a package directory. */
  type Path = seq<string>

  datatype Line = Line(glob: string, destination: string)

  /** What a glob matches on the source side. */
  datatype Match = Match(path: Path, isDir: bool)

  /** One file put somewhere by one install line. */
  datatype Delivery = Delivery(target: string, source: Path)

  // ---- where an install line puts files ------------------------------------------------------

  function TrimLeft(s: string): string {
    if |s| > 0 && s[0] == '/' then TrimLeft(s[1..]) else s
  }

  function TrimRight(s: string): string {
    if |s| > 0 && s[|s| - 1] == '/' then TrimRight(s[..|s| - 1]) else s
  }

  /** `s.strip("/")`. */
  function Trim(s: string): string {
    TrimRight(TrimLeft(s))
  }

  function TargetOf(destination: string, inner: Path): string {
    Trim(Trim(destination) + "/" + Join('/', inner))
  }

  predicate AllSlashes(s: string) {
    forall i :: 0 <= i < |s| ==> s[i] == '/'
  }

  /** No slash at either end. */
  predicate Bare(s: string) {
    s == "" || (s[0] != '/' && s[|s| - 1] != '/')
  }

  lemma {:induction false} TrimLeftIs(s: string, slashes: string)
    requires AllSlashes(slashes) && (s == "" || s[0] != '/')
    ensures TrimLeft(slashes + s) == s
  {
    if slashes == "" {
      assert slashes + s == s;
    } else {
      assert (slashes + s)[1..] == slashes[1..] + s;
      TrimLeftIs(s, slashes[1..]);
    }
  }

  lemma {:induction false} TrimRightIs(s: string, slashes: string)
    requires AllSlashes(slashes) && (s == "" || s[|s| - 1] != '/')
    ensures TrimRight(s + slashes) == s
  {
    if slashes == "" {
      assert s + slashes == s;
    } else {
      assert (s + slashes)[..|s + slashes| - 1] == s + slashes[..|slashes| - 1];
      TrimRightIs(s, slashes[..|slashes| - 1]);
    }
  }

  /** Slashes at both ends come off, and nothing else. */
  lemma TrimIs(s: string, before: string, behind: string)
    requires AllSlashes(before) && AllSlashes(behind) && Bare(s)
    ensures Trim(before + s + behind) == s
  {
    assert before + s + behind == before + (s + behind);
    if s == "" {
      assert before + (s + behind) == before + behind + "";
      TrimLeftIs("", before + behind);
      TrimRightIs("", "");
    } else {
      TrimLeftIs(s + behind, before);
      TrimRightIs(s, behind);
    }
  }

  /** A segment of a path: not empty, and without a slash. */
  predicate Segment(s: string) {
    s != "" && '/' !in s
  }

  lemma {:induction false} JoinedIsBare(inner: Path)
    requires |inner| > 0 && forall i :: 0 <= i < |inner| ==> Segment(inner[i])
    ensures Join('/', inner) != "" && Bare(Join('/', inner))
  {
    if |inner| > 1 {
      JoinedIsBare(inner[1..]);
      assert Join('/', inner) == inner[0] + ['/'] + Join('/', inner[1..]);
    }
  }

  lemma TrimBare(s: string)
    requires Bare(s)
    ensures Trim(s) == s && Trim("/" + s) == s
  {
    TrimIs(s, "", "");
    TrimIs(s, "/", "");
    assert "" + s + "" == s && "/" + s + "" == "/" + s;
  }

  lemma BareBehind(directory: string, path: string)
    requires Bare(directory) && Bare(path) && directory != "" && path != ""
    ensures Bare(directory + "/" + path)
  {
  }

  /** A destination with slashes around it, and a path below it: the one behind the other, with one slash between. */
  lemma TargetIs(directory: string, before: string, behind: string, inner: Path)
    requires AllSlashes(before) && AllSlashes(behind) && Bare(directory)
    requires |inner| > 0 && forall i :: 0 <= i < |inner| ==> Segment(inner[i])
    ensures TargetOf(before + directory + behind, inner) ==
      if directory == "" then Join('/', inner) else directory + "/" + Join('/', inner)
  {
    var path := Join('/', inner);
    TrimIs(directory, before, behind);
    JoinedIsBare(inner);
    if directory == "" {
      TrimBare(path);
      assert directory + "/" == "/";
    } else {
      BareBehind(directory, path);
      TrimBare(directory + "/" + path);
    }
  }

  function NameOf(path: Path): Path {
    if |path| == 0 then [] else [path[|path| - 1]]
  }

  /** The path of a file below `directory`, starting with the directory's own name. */
  function InnerPath(directory: Path, file: Path): Path
    requires directory <= file
  {
    if |directory| == 0 then file else file[|directory| - 1..]
  }

  /** A directory ships every tracked file beneath it. */
  function BelowDeliveries(destination: string, directory: Path, tracked: seq<Path>): seq<Delivery> {
    if |tracked| == 0 then []
    else
      var file := tracked[|tracked| - 1];
      BelowDeliveries(destination, directory, tracked[..|tracked| - 1])
      + if directory <= file then [Delivery(TargetOf(destination, InnerPath(directory, file)), file)] else []
  }

  function MatchDeliveries(destination: string, m: Match, tracked: seq<Path>): seq<Delivery> {
    if m.isDir then BelowDeliveries(destination, m.path, tracked)
    else [Delivery(TargetOf(destination, NameOf(m.path)), m.path)]
  }

  function MatchesDeliveries(destination: string, matches: seq<Match>, tracked: seq<Path>): seq<Delivery> {
    if |matches| == 0 then []
    else
      MatchesDeliveries(destination, matches[..|matches| - 1], tracked)
      + MatchDeliveries(destination, matches[|matches| - 1], tracked)
  }

  /** Every delivery of a list of install lines, in the order they are made. */
  function Deliveries(lines: seq<Line>, expand: string -> seq<Match>, tracked: seq<Path>): seq<Delivery> {
    if |lines| == 0 then []
    else
      var line := lines[|lines| - 1];
      Deliveries(lines[..|lines| - 1], expand, tracked)
          + MatchesDeliveries(line.destination, expand(line.glob), tracked)
  }

  /** `installed`: a later delivery to the same target replaces an earlier one. */
  function Installed(ds: seq<Delivery>): map<string, Path> {
    if |ds| == 0 then map[] else Installed(ds[..|ds| - 1])[ds[|ds| - 1].target := ds[|ds| - 1].source]
  }

  /** `consumed`. */
  function Consumed(ds: seq<Delivery>): set<Path> {
    if |ds| == 0 then {} else Consumed(ds[..|ds| - 1]) + {ds[|ds| - 1].source}
  }

  predicate AllMatched(expand: string -> seq<Match>, lines: seq<Line>) {
    forall line :: line in lines ==> expand(line.glob) != []
  }

  lemma MatchesStep(destination: string, matches: seq<Match>, j: nat, tracked: seq<Path>)
    requires j < |matches|
    ensures MatchesDeliveries(destination, matches[..j + 1], tracked)
        == MatchesDeliveries(destination, matches[..j], tracked) + MatchDeliveries(destination, matches[j], tracked)
  {
    assert matches[..j + 1][..j] == matches[..j];
  }

  lemma DeliveriesStep(lines: seq<Line>, i: nat, expand: string -> seq<Match>, tracked: seq<Path>)
    requires i < |lines|
    ensures Deliveries(lines[..i + 1], expand, tracked)
        == Deliveries(lines[..i], expand, tracked)
            + MatchesDeliveries(lines[i].destination, expand(lines[i].glob), tracked)
  {
    assert lines[..i + 1][..i] == lines[..i];
  }

  lemma Regroup(a: seq<Delivery>, b: seq<Delivery>, c: seq<Delivery>)
    ensures a + b + c == a + (b + c)
  {
  }

  lemma {:induction false} InstalledAppend(a: seq<Delivery>, one: Delivery)
    ensures Installed(a + [one]) == Installed(a)[one.target := one.source]
    ensures Consumed(a + [one]) == Consumed(a) + {one.source}
  {
    assert (a + [one])[..|a|] == a;
  }

  /** The two tables `shipped_paths` fills. */
  class Shipment {
    var installed: map<string, Path>
    var consumed: set<Path>
    ghost var made: seq<Delivery>   // every delivery so far

    ghost predicate Valid()
      reads this
    {
      installed == Installed(made) && consumed == Consumed(made)
    }

    constructor ()
      ensures Valid() && made == []
    {
      installed, consumed, made := map[], {}, [];
    }

    method Deliver(target: string, source: Path)
      requires Valid()
      modifies this
      ensures Valid() && made == old(made) + [Delivery(target, source)]
    {
      InstalledAppend(made, Delivery(target, source));
      installed := installed[target := source];
      consumed := consumed + {source};
      made := made + [Delivery(target, source)];
    }

    method DeliverMatch(destination: string, m: Match, tracked: seq<Path>)
      requires Valid()
      modifies this
      ensures Valid() && made == old(made) + MatchDeliveries(destination, m, tracked)
    {
      if !m.isDir {
        Deliver(TargetOf(destination, NameOf(m.path)), m.path);
        return;
      }
      for i := 0 to |tracked|
        invariant Valid() && made == old(made) + BelowDeliveries(destination, m.path, tracked[..i])
      {
        assert tracked[..i + 1][..i] == tracked[..i];
        if m.path <= tracked[i] {
          Deliver(TargetOf(destination, InnerPath(m.path, tracked[i])), tracked[i]);
        }
      }
      assert tracked[..|tracked|] == tracked;
    }

    method DeliverMatches(destination: string, matches: seq<Match>, tracked: seq<Path>)
      requires Valid()
      modifies this
      ensures Valid() && made == old(made) + MatchesDeliveries(destination, matches, tracked)
    {
      for j := 0 to |matches|
        invariant Valid() && made == old(made) + MatchesDeliveries(destination, matches[..j], tracked)
      {
        DeliverMatch(destination, matches[j], tracked);
        MatchesStep(destination, matches, j, tracked);
        Regroup(old(made), MatchesDeliveries(destination, matches[..j], tracked),
            MatchDeliveries(destination, matches[j], tracked));
      }
      assert matches[..|matches|] == matches;
    }

    /** Runs every install line; raises at the first whose glob matches nothing. */
    method Ship(lines: seq<Line>, expand: string -> seq<Match>, tracked: seq<Path>) returns (raised: bool)
      requires Valid() && made == []
      modifies this
      ensures Valid()
      ensures raised <==> !AllMatched(expand, lines)
      ensures !raised ==> made == Deliveries(lines, expand, tracked)
    {
      for i := 0 to |lines|
        invariant Valid() && made == Deliveries(lines[..i], expand, tracked)
        invariant AllMatched(expand, lines[..i])
      {
        if expand(lines[i].glob) == [] {
          return true;
        }
        DeliverMatches(lines[i].destination, expand(lines[i].glob), tracked);
        DeliveriesStep(lines, i, expand, tracked);
      }
      assert lines[..|lines|] == lines;
      return false;
    }
  }

  // ---- what a list of lines installs --------------------------------------------------------------

  /** A line delivers a matched file under its own name, and of a matched directory every tracked file in it. */
  predicate Delivers(line: Line, m: Match, tracked: seq<Path>, d: Delivery) {
    if !m.isDir then
      d.source == m.path && d.target == TargetOf(line.destination, if m.path == [] then [] else [m.path[|m.path| - 1]])
    else
      && d.source in tracked && m.path <= d.source
      && d.target == TargetOf(line.destination, if m.path == [] then d.source
                                                else [m.path[|m.path| - 1]] + d.source[|m.path|..])
  }

  lemma {:induction false} BelowMeans(line: Line, m: Match, tracked: seq<Path>, d: Delivery)
    requires m.isDir
    ensures d in BelowDeliveries(line.destination, m.path, tracked) <==> Delivers(line, m, tracked, d)
  {
    if |tracked| > 0 {
      var n := |tracked| - 1;
      BelowMeans(line, m, tracked[..n], d);
      assert d.source in tracked <==> d.source in tracked[..n] || d.source == tracked[n];
      if m.path <= tracked[n] && m.path != [] {
        assert InnerPath(m.path, tracked[n]) == [m.path[|m.path| - 1]] + tracked[n][|m.path|..];
      }
    }
  }

  /** Some match of the line makes the delivery. */
  predicate SomeMatch(line: Line, matches: seq<Match>, tracked: seq<Path>, d: Delivery) {
    exists i :: 0 <= i < |matches| && Delivers(line, matches[i], tracked, d)
  }

  lemma SomeMatchSnoc(line: Line, matches: seq<Match>, tracked: seq<Path>, d: Delivery)
    requires |matches| > 0
    ensures SomeMatch(line, matches, tracked, d) <==>
      SomeMatch(line, matches[..|matches| - 1], tracked, d) || Delivers(line, matches[|matches| - 1], tracked, d)
  {
    var init := matches[..|matches| - 1];
    if i :| 0 <= i < |init| && Delivers(line, init[i], tracked, d) {
      assert init[i] == matches[i];
    }
    if i :| 0 <= i < |matches| - 1 && Delivers(line, matches[i], tracked, d) {
      assert init[i] == matches[i];
    }
  }

  lemma MatchMeans(line: Line, m: Match, tracked: seq<Path>, d: Delivery)
    ensures d in MatchDeliveries(line.destination, m, tracked) <==> Delivers(line, m, tracked, d)
  {
    if m.isDir {
      BelowMeans(line, m, tracked, d);
    }
  }

  lemma {:induction false} MatchesMean(line: Line, matches: seq<Match>, tracked: seq<Path>, d: Delivery)
    ensures d in MatchesDeliveries(line.destination, matches, tracked) <==> SomeMatch(line, matches, tracked, d)
  {
    if |matches| > 0 {
      MatchesMean(line, matches[..|matches| - 1], tracked, d);
      MatchMeans(line, matches[|matches| - 1], tracked, d);
      SomeMatchSnoc(line, matches, tracked, d);
    }
  }

  /** Some line makes the delivery. */
  predicate SomeLine(lines: seq<Line>, expand: string -> seq<Match>, tracked: seq<Path>, d: Delivery) {
    exists i :: 0 <= i < |lines| && SomeMatch(lines[i], expand(lines[i].glob), tracked, d)
  }

  lemma SomeLineSnoc(lines: seq<Line>, expand: string -> seq<Match>, tracked: seq<Path>, d: Delivery)
    requires |lines| > 0
    ensures var n := |lines| - 1;
      SomeLine(lines, expand, tracked, d) <==>
      SomeLine(lines[..n], expand, tracked, d) || SomeMatch(lines[n], expand(lines[n].glob), tracked, d)
  {
    var init := lines[..|lines| - 1];
    if i :| 0 <= i < |init| && SomeMatch(init[i], expand(init[i].glob), tracked, d) {
      assert init[i] == lines[i];
    }
    if i :| 0 <= i < |lines| - 1 && SomeMatch(lines[i], expand(lines[i].glob), tracked, d) {
      assert init[i] == lines[i];
    }
  }

  /** A list makes exactly the deliveries of its lines. */
  lemma {:induction false} DeliveriesMean(lines: seq<Line>, expand: string -> seq<Match>, tracked: seq<Path>,
          d: Delivery)
    ensures d in Deliveries(lines, expand, tracked) <==> SomeLine(lines, expand, tracked, d)
  {
    if |lines| > 0 {
      var last := lines[|lines| - 1];
      DeliveriesMean(lines[..|lines| - 1], expand, tracked, d);
      MatchesMean(last, expand(last.glob), tracked, d);
      SomeLineSnoc(lines, expand, tracked, d);
    }
  }

  // ---- two lines on one destination ---------------------------------------------------------------

  /** No two deliveries put different files on one target. */
  predicate NoCollision(ds: seq<Delivery>) {
    forall a, b :: a in ds && b in ds && a.target == b.target ==> a.source == b.source
  }

  lemma {:induction false} InstalledFromDelivery(ds: seq<Delivery>, target: string)
    ensures target in Installed(ds) <==> exists d :: d in ds && d.target == target
    ensures target in Installed(ds) ==> exists d :: d in ds && d.target == target && d.source == Installed(ds)[target]
  {
    if |ds| > 0 {
      var n := |ds| - 1;
      InstalledFromDelivery(ds[..n], target);
      assert forall d :: d in ds <==> d in ds[..n] || d == ds[n];
    }
  }

  /**
   Every delivered file is installed where its line says exactly when no two
   lines put different files on one destination; otherwise a file counts as
   shipped although another took its place.
   */
  lemma DeliveredIffNoCollision(ds: seq<Delivery>)
    ensures (forall d :: d in ds ==> d.target in Installed(ds) && Installed(ds)[d.target] == d.source)
      <==> NoCollision(ds)
  {
    forall d | d in ds
      ensures d.target in Installed(ds)
      ensures exists e :: e in ds && e.target == d.target && e.source == Installed(ds)[d.target]
    {
      InstalledFromDelivery(ds, d.target);
    }
  }

  // ---- one source package -----------------------------------------------------------------------------

  /** One binary package's install lines. */
  datatype List = List(binary: string, lines: seq<Line>)

  /** A source package, and what the file system says of its files. */
  datatype Package = Package(
    tracked: seq<Path>,                      // sorted
    lists: seq<List>,
    expand: string -> seq<Match>,            // a glob's matches
    head: string -> Option<string>,          // a glob's first segment, when that is a directory
    excused: Path -> bool,                   // matched by debian/not-installed
    pinned: bool)                            // its payload comes from a build system

  /** The top-level trees the lines ship out of. */
  function Roots(lines: seq<Line>, head: string -> Option<string>): set<string> {
    if |lines| == 0 then {}
    else
      var h := head(lines[|lines| - 1].glob);
      Roots(lines[..|lines| - 1], head) + if h.Some? then {h.value} else {}
  }

  function AllLines(lists: seq<List>): seq<Line> {
    if |lists| == 0 then [] else AllLines(lists[..|lists| - 1]) + lists[|lists| - 1].lines
  }

  /** What all the lists deliver, in turn. */
  function AllDeliveries(p: Package, lists: seq<List>): seq<Delivery> {
    if |lists| == 0 then []
    else AllDeliveries(p, lists[..|lists| - 1]) + Deliveries(lists[|lists| - 1].lines, p.expand, p.tracked)
  }

  /** `ship`: what each binary package installs where. */
  function ShipOf(p: Package, lists: seq<List>): map<string, map<string, Path>> {
    if |lists| == 0 then map[]
    else
      var list := lists[|lists| - 1];
      ShipOf(p, lists[..|lists| - 1])[list.binary := Installed(Deliveries(list.lines, p.expand, p.tracked))]
  }

  /** A payload file: tracked, in a tree some list ships out of. */
  predicate IsPayload(p: Package, file: Path) {
    file in p.tracked && UnderRoot(file, Roots(AllLines(p.lists), p.head))
  }

  predicate UnderRoot(file: Path, roots: set<string>) {
    |file| > 0 && file[0] in roots
  }

  predicate IsDebian(file: Path) {
    |file| > 0 && file[0] == "debian"
  }

  /** Some install line delivers the file. */
  predicate IsDelivered(p: Package, file: Path) {
    exists d :: d in AllDeliveries(p, p.lists) && d.source == file
  }

  /** The source package passes the reverse manifest. */
  ghost predicate Passes(p: Package) {
    if p.lists == [] then p.pinned || forall f :: f in p.tracked ==> |f| > 0 && f[0] == "debian"
    else AllMatched(p.expand, AllLines(p.lists)) && forall f :: IsPayload(p, f) ==> IsDelivered(p, f) || p.excused(f)
  }

  lemma {:induction false} ConsumedIs(ds: seq<Delivery>, file: Path)
    ensures file in Consumed(ds) <==> exists d :: d in ds && d.source == file
  {
    if |ds| > 0 {
      var n := |ds| - 1;
      ConsumedIs(ds[..n], file);
      assert forall d :: d in ds <==> d in ds[..n] || d == ds[n];
    }
  }

  lemma {:induction false} ConsumedAppend(a: seq<Delivery>, b: seq<Delivery>)
    ensures Consumed(a + b) == Consumed(a) + Consumed(b)
  {
    if |b| == 0 {
      assert a + b == a;
    } else {
      ConsumedAppend(a, b[..|b| - 1]);
      assert (a + b)[..|a + b| - 1] == a + b[..|b| - 1];
    }
  }

  lemma {:induction false} RootsAppend(a: seq<Line>, b: seq<Line>, head: string -> Option<string>)
    ensures Roots(a + b, head) == Roots(a, head) + Roots(b, head)
  {
    if |b| == 0 {
      assert a + b == a;
    } else {
      RootsAppend(a, b[..|b| - 1], head);
      assert (a + b)[..|a + b| - 1] == a + b[..|b| - 1];
    }
  }

  /** A tree is a payload root exactly when the head of some line's glob is that directory. */
  lemma {:induction false} RootsMean(lines: seq<Line>, head: string -> Option<string>, root: string)
    ensures root in Roots(lines, head) <==> exists line :: line in lines && head(line.glob) == Some(root)
  {
    if |lines| > 0 {
      var n := |lines| - 1;
      RootsMean(lines[..n], head, root);
      assert forall line :: line in lines <==> line in lines[..n] || line == lines[n];
    }
  }

  lemma {:induction false} AllLinesMean(lists: seq<List>, line: Line)
    ensures line in AllLines(lists) <==> exists list :: list in lists && line in list.lines
  {
    if |lists| > 0 {
      var n := |lists| - 1;
      AllLinesMean(lists[..n], line);
      assert forall list :: list in lists <==> list in lists[..n] || list == lists[n];
    }
  }

  /** A payload file is a tracked one in a top-level tree that some line of some list ships out of. */
  lemma PayloadMeans(p: Package, file: Path)
    ensures IsPayload(p, file) <==>
      && file in p.tracked && file != []
      && exists line :: line in AllLines(p.lists) && p.head(line.glob) == Some(file[0])
  {
    if file != [] {
      RootsMean(AllLines(p.lists), p.head, file[0]);
    }
  }

  lemma {:induction false} LineInAll(lists: seq<List>, k: nat, line: Line)
    requires k < |lists| && line in lists[k].lines
    ensures line in AllLines(lists)
  {
    if k < |lists| - 1 {
      LineInAll(lists[..|lists| - 1], k, line);
    }
  }

  /** What one more list adds to every table. */
  lemma TablesStep(p: Package, k: nat)
    requires k < |p.lists|
    ensures var before, lines, ds := p.lists[..k], p.lists[k].lines, Deliveries(p.lists[k].lines, p.expand, p.tracked);
      && AllLines(p.lists[..k + 1]) == AllLines(before) + lines
      && Consumed(AllDeliveries(p, p.lists[..k + 1])) == Consumed(AllDeliveries(p, before)) + Consumed(ds)
      && Roots(AllLines(p.lists[..k + 1]), p.head) == Roots(AllLines(before), p.head) + Roots(lines, p.head)
      && ShipOf(p, p.lists[..k + 1]) == ShipOf(p, before)[p.lists[k].binary := Installed(ds)]
  {
    assert p.lists[..k + 1][..k] == p.lists[..k];
    ConsumedAppend(AllDeliveries(p, p.lists[..k]), Deliveries(p.lists[k].lines, p.expand, p.tracked));
    RootsAppend(AllLines(p.lists[..k]), p.lists[k].lines, p.head);
  }

  method ShipList(p: Package, lines: seq<Line>)
          returns (raised: bool, installed: map<string, Path>, consumed: set<Path>)
    ensures raised <==> !AllMatched(p.expand, lines)
    ensures !raised ==> installed == Installed(Deliveries(lines, p.expand, p.tracked))
    ensures !raised ==> consumed == Consumed(Deliveries(lines, p.expand, p.tracked))
  {
    var shipment := new Shipment();
    raised := shipment.Ship(lines, p.expand, p.tracked);
    return raised, shipment.installed, shipment.consumed;
  }

  /** Runs every list of one source package. */
  method ShipAll(p: Package) returns (raised: bool, ship: map<string, map<string, Path>>, consumed: set<Path>,
          roots: set<string>)
    ensures raised <==> !AllMatched(p.expand, AllLines(p.lists))
    ensures !raised ==> ship == ShipOf(p, p.lists)
    ensures !raised ==> consumed == Consumed(AllDeliveries(p, p.lists)) && roots == Roots(AllLines(p.lists), p.head)
  {
    ship, consumed, roots := map[], {}, {};
    for k := 0 to |p.lists|
      invariant AllMatched(p.expand, AllLines(p.lists[..k])) && ship == ShipOf(p, p.lists[..k])
      invariant consumed == Consumed(AllDeliveries(p, p.lists[..k])) && roots == Roots(AllLines(p.lists[..k]), p.head)
    {
      var lines := p.lists[k].lines;
      var installed, used;
      raised, installed, used := ShipList(p, lines);
      if raised {
        var line :| line in lines && p.expand(line.glob) == [];
        LineInAll(p.lists, k, line);
        return;
      }
      TablesStep(p, k);
      ship := ship[p.lists[k].binary := installed];
      consumed := consumed + used;
      roots := roots + Roots(lines, p.head);
    }
    assert p.lists[..|p.lists|] == p.lists;
    raised := false;
  }

  /** The sweep: tracked payload files that nothing delivers and nothing excuses. */
  method Unshipped(p: Package, consumed: set<Path>, roots: set<string>) returns (findings: seq<Path>)
    ensures forall f :: f in findings <==> f in p.tracked && UnderRoot(f, roots) && f !in consumed && !p.excused(f)
  {
    findings := [];
    for i := 0 to |p.tracked|
      invariant forall f :: f in findings <==>
        f in p.tracked[..i] && UnderRoot(f, roots) && f !in consumed && !p.excused(f)
    {
      var file := p.tracked[i];
      if UnderRoot(file, roots) && file !in consumed && !p.excused(file) {
        findings := findings + [file];
      }
    }
    assert p.tracked[..|p.tracked|] == p.tracked;
  }

  /** The reverse manifest of one source package: its lists, then the sweep of its tracked files. */
  method CheckPackage(p: Package) returns (ok: bool, ship: map<string, map<string, Path>>)
    ensures ok <==> Passes(p)
    ensures ok ==> ship == ShipOf(p, p.lists)
  {
    if p.lists == [] {
      return p.pinned || forall f :: f in p.tracked ==> IsDebian(f), map[];
    }
    var raised, consumed, roots;
    raised, ship, consumed, roots := ShipAll(p);
    if raised {
      return false, ship;
    }
    var findings := Unshipped(p, consumed, roots);
    forall f
      ensures f in findings <==> IsPayload(p, f) && !IsDelivered(p, f) && !p.excused(f)
    {
      ConsumedIs(AllDeliveries(p, p.lists), f);
    }
    assert findings != [] ==> findings[0] in findings;
    return findings == [], ship;
  }

  // ---- every source package ---------------------------------------------------------------------------

  function TotalShip(sources: seq<Package>): map<string, map<string, Path>> {
    if |sources| == 0 then map[]
    else TotalShip(sources[..|sources| - 1]) + ShipOf(sources[|sources| - 1], sources[|sources| - 1].lists)
  }

  ghost predicate AllPass(sources: seq<Package>) {
    |sources| > 0 ==> AllPass(sources[..|sources| - 1]) && Passes(sources[|sources| - 1])
  }

  /** The ship lists of the whole tree; raises unless every source package passes. */
  method BuildShipLists(sources: seq<Package>) returns (ok: bool, ship: map<string, map<string, Path>>)
    ensures ok <==> AllPass(sources)
    ensures ok ==> ship == TotalShip(sources)
  {
    ok, ship := true, map[];
    for i := 0 to |sources|
      invariant ok <==> AllPass(sources[..i])
      invariant ok ==> ship == TotalShip(sources[..i])
    {
      assert sources[..i + 1][..i] == sources[..i];
      var passes, installed := CheckPackage(sources[i]);
      ok, ship := ok && passes, ship + installed;
    }
    assert sources[..|sources|] == sources;
  }

  lemma {:induction false} AllPassMeans(sources: seq<Package>, i: nat)
    requires AllPass(sources) && i < |sources|
    ensures Passes(sources[i])
  {
    if i < |sources| - 1 {
      AllPassMeans(sources[..|sources| - 1], i);
    }
  }

  // ---- against the built packages ------------------------------------------------------------------------

  const DOC := "usr/share/doc/"

  function DebhelperAdded(package: string): set<string> {
    {DOC + package + "/changelog.Debian.gz", DOC + package + "/NEWS.Debian.gz", DOC + package + "/copyright",
     "usr/share/lintian/overrides/" + package}
  }

  /** Declared, or the gzip of a declared doc, or added by debhelper. */
  predicate IsAllowed(package: string, declared: set<string>, path: string) {
    || path in declared
    || (exists d :: d in declared && "usr/share/doc/" <= d && path == d + ".gz")
    || path == "usr/share/doc/" + package + "/changelog.Debian.gz"
    || path == "usr/share/doc/" + package + "/NEWS.Debian.gz"
    || path == "usr/share/doc/" + package + "/copyright"
    || path == "usr/share/lintian/overrides/" + package
  }

  predicate IsBuilt(built: set<string>, path: string) {
    path in built || path + ".gz" in built
  }

  /** The built package and its ship list describe each other. */
  predicate Agrees(package: string, declared: set<string>, built: set<string>) {
    && (forall path :: path in built ==> IsAllowed(package, declared, path))
    && (forall path :: path in declared ==> IsBuilt(built, path))
  }

  /** `{p[:-3] for p in paths if p.endswith(".gz")}` holds a path exactly when its gzip was built. */
  lemma Unzipped(built: set<string>, path: string)
    ensures (exists p :: p in built && |p| >= 3 && p[|p| - 3..] == ".gz" && p[..|p| - 3] == path)
      <==> path + ".gz" in built
  {
    if p :| p in built && |p| >= 3 && p[|p| - 3..] == ".gz" && p[..|p| - 3] == path {
      assert p == path + ".gz";
    }
    if path + ".gz" in built {
      var p := path + ".gz";
      assert p[|p| - 3..] == ".gz" && p[..|p| - 3] == path;
    }
  }

  /** What is wrong with one built package: undeclared files, and declared files that are not there. */
  method Disagreements(package: string, declared: set<string>, built: set<string>)
          returns (extra: set<string>, absent: set<string>)
    ensures forall path :: path in extra <==> path in built && !IsAllowed(package, declared, path)
    ensures forall path :: path in absent <==> path in declared && !IsBuilt(built, path)
    ensures extra + absent == {} <==> Agrees(package, declared, built)
  {
    var allowed := declared + (set d | d in declared && DOC <= d :: d + ".gz") + DebhelperAdded(package);
    extra := built - allowed;
    var unzipped := set p | p in built && |p| >= 3 && p[|p| - 3..] == ".gz" :: p[..|p| - 3];
    absent := declared - built - unzipped;
    forall path
      ensures path in unzipped <==> path + ".gz" in built
    {
      Unzipped(built, path);
    }
    assert forall path :: path in built && !IsAllowed(package, declared, path) ==> path in extra;
    assert forall path :: path in declared && !IsBuilt(built, path) ==> path in absent;
  }

  /** Every built package that has a ship list agrees with it; the others are not checked. */
  method CheckBuiltPayload(ship: map<string, map<string, Path>>, built: map<string, set<string>>) returns (ok: bool)
    ensures ok <==> forall package :: package in built && package in ship ==>
      Agrees(package, ship[package].Keys, built[package])
  {
    ok := true;
    var left := built.Keys;
    while left != {}
      invariant left <= built.Keys
      invariant ok <==> forall package :: package in built.Keys - left && package in ship
                          ==> Agrees(package, ship[package].Keys, built[package])
      decreases |left|
    {
      var package :| package in left;
      left := left - {package};
      if package in ship {
        var extra, absent := Disagreements(package, ship[package].Keys, built[package]);
        ok := ok && extra + absent == {};
      }
    }
  }

  // ---- from the source tree to the built packages --------------------------------------------------------------

  predicate DistinctBinaries(lists: seq<List>) {
    forall i, j :: 0 <= i < j < |lists| ==> lists[i].binary != lists[j].binary
  }

  predicate NoCollisions(p: Package) {
    forall k :: 0 <= k < |p.lists| ==> NoCollision(Deliveries(p.lists[k].lines, p.expand, p.tracked))
  }

  lemma {:induction false} DeliveredByAList(p: Package, lists: seq<List>, d: Delivery)
    requires d in AllDeliveries(p, lists)
    ensures exists k :: 0 <= k < |lists| && d in Deliveries(lists[k].lines, p.expand, p.tracked)
  {
    var n := |lists| - 1;
    if d !in Deliveries(lists[n].lines, p.expand, p.tracked) {
      DeliveredByAList(p, lists[..n], d);
    }
  }

  lemma {:induction false} ShipOfList(p: Package, lists: seq<List>, k: nat)
    requires k < |lists| && DistinctBinaries(lists)
    ensures lists[k].binary in ShipOf(p, lists)
    ensures ShipOf(p, lists)[lists[k].binary] == Installed(Deliveries(lists[k].lines, p.expand, p.tracked))
  {
    if k < |lists| - 1 {
      ShipOfList(p, lists[..|lists| - 1], k);
    }
  }

  lemma {:induction false} ShipOfKeys(p: Package, lists: seq<List>, binary: string) returns (k: nat)
    requires binary in ShipOf(p, lists)
    ensures k < |lists| && lists[k].binary == binary
  {
    k := |lists| - 1;
    if lists[k].binary != binary {
      k := ShipOfKeys(p, lists[..k], binary);
    }
  }

  predicate HasList(p: Package, binary: string) {
    exists k :: 0 <= k < |p.lists| && p.lists[k].binary == binary
  }

  /** No two sources declare the same binary package. */
  ghost predicate OneHome(sources: seq<Package>) {
    && (forall i :: 0 <= i < |sources| ==> DistinctBinaries(sources[i].lists))
    && forall i, j, binary :: 0 <= i < j < |sources| && HasList(sources[i], binary) ==> !HasList(sources[j], binary)
  }

  /** In the lists of the whole tree each binary package has what its own source ships. */
  lemma {:induction false} TotalShipOf(sources: seq<Package>, i: nat, binary: string)
    requires OneHome(sources) && i < |sources| && HasList(sources[i], binary)
    requires binary in ShipOf(sources[i], sources[i].lists)
    ensures binary in TotalShip(sources) && TotalShip(sources)[binary] == ShipOf(sources[i], sources[i].lists)[binary]
  {
    var n := |sources| - 1;
    if i < n {
      TotalShipOf(sources[..n], i, binary);
      if binary in ShipOf(sources[n], sources[n].lists) {
        var k := ShipOfKeys(sources[n], sources[n].lists, binary);
        assert HasList(sources[n], binary);
      }
    }
  }

  /** Which list of a source delivers a file of its payload, and where. */
  lemma PayloadIsInstalled(p: Package, file: Path) returns (k: nat, path: string)
    requires Passes(p) && NoCollisions(p) && DistinctBinaries(p.lists)
    requires IsPayload(p, file) && !p.excused(file)
    ensures k < |p.lists| && p.lists[k].binary in ShipOf(p, p.lists)
    ensures path in ShipOf(p, p.lists)[p.lists[k].binary] && ShipOf(p, p.lists)[p.lists[k].binary][path] == file
  {
    var d :| d in AllDeliveries(p, p.lists) && d.source == file;
    DeliveredByAList(p, p.lists, d);
    k :| 0 <= k < |p.lists| && d in Deliveries(p.lists[k].lines, p.expand, p.tracked);
    DeliveredIffNoCollision(Deliveries(p.lists[k].lines, p.expand, p.tracked));
    ShipOfList(p, p.lists, k);
    path := d.target;
  }

  /**
   When the ship lists of the whole tree are built, every built package agrees
   with them and no install lines collide, every payload file of every source
   that is not excused is installed by a binary package, and is in that package,
   as itself or gzipped, if it was built.
   */
  lemma PayloadIsBuilt(sources: seq<Package>, built: map<string, set<string>>, i: nat, file: Path)
    returns (binary: string, path: string)
    requires OneHome(sources) && AllPass(sources)
    requires forall b :: b in built && b in TotalShip(sources) ==> Agrees(b, TotalShip(sources)[b].Keys, built[b])
    requires i < |sources| && NoCollisions(sources[i]) && IsPayload(sources[i], file) && !sources[i].excused(file)
    ensures binary in TotalShip(sources) && path in TotalShip(sources)[binary]
      && TotalShip(sources)[binary][path] == file
    ensures binary in built ==> IsBuilt(built[binary], path)
  {
    var p := sources[i];
    AllPassMeans(sources, i);
    var k;
    k, path := PayloadIsInstalled(p, file);
    binary := p.lists[k].binary;
    assert HasList(p, binary);
    TotalShipOf(sources, i, binary);
  }

  lemma TwoFiles(one: Line, two: Line, expand: string -> seq<Match>, tracked: seq<Path>, first: Path, second: Path)
    requires expand(one.glob) == [Match(first, false)] && expand(two.glob) == [Match(second, false)]
    ensures Deliveries([one, two], expand, tracked)
         == [Delivery(TargetOf(one.destination, NameOf(first)), first),
             Delivery(TargetOf(two.destination, NameOf(second)), second)]
  {
    var lines := [one, two];
    assert lines[..0] == [] && lines[..1] == [one] && lines[..2] == lines;
    DeliveriesStep(lines, 0, expand, tracked);
    DeliveriesStep(lines, 1, expand, tracked);
    OneMatch(one.destination, expand(one.glob), tracked);
    OneMatch(two.destination, expand(two.glob), tracked);
  }

  lemma OneMatch(destination: string, matches: seq<Match>, tracked: seq<Path>)
    requires |matches| == 1 && !matches[0].isDir
    ensures MatchesDeliveries(destination, matches, tracked)
         == [Delivery(TargetOf(destination, NameOf(matches[0].path)), matches[0].path)]
  {
    assert matches[..0] == [];
  }

  lemma SecondWins(target: string, first: Path, second: Path)
    ensures Installed([Delivery(target, first), Delivery(target, second)]) == map[target := second]
  {
    var ds := [Delivery(target, first), Delivery(target, second)];
    assert ds[..1] == [ds[0]] && ds[..1][..0] == [];
    assert Installed(ds[..1]) == map[target := first];
  }

  lemma OneList(p: Package, list: List)
    requires p.lists == [list]
    ensures AllLines(p.lists) == list.lines
    ensures AllDeliveries(p, p.lists) == Deliveries(list.lines, p.expand, p.tracked)
    ensures ShipOf(p, p.lists) == map[list.binary := Installed(Deliveries(list.lines, p.expand, p.tracked))]
  {
    assert p.lists[..0] == [];
  }

  lemma DeliveredPayloadPasses(p: Package, list: List, a: Delivery, b: Delivery)
    requires p.lists == [list] && AllMatched(p.expand, list.lines)
    requires Deliveries(list.lines, p.expand, p.tracked) == [a, b]
    requires forall f :: IsPayload(p, f) ==> f == a.source || f == b.source
    ensures Passes(p)
  {
    OneList(p, list);
    var ds := AllDeliveries(p, p.lists);
    assert ds[0] in ds && ds[1] in ds;
  }

  lemma TwoCollide(ds: seq<Delivery>, a: Delivery, b: Delivery)
    requires ds == [a, b] && a.target == b.target && a.source != b.source
    ensures !NoCollision(ds) && Installed(ds) == map[a.target := b.source]
  {
    SecondWins(a.target, a.source, b.source);
    assert ds[0] in ds && ds[1] in ds;
  }

  lemma OneBinary(ship: map<string, map<string, Path>>, binary: string, target: string, shown: Path, hidden: Path)
    requires ship == map[binary := map[target := shown]] && shown != hidden
    ensures forall b :: b in ship ==> hidden !in ship[b].Values
  {
  }

  lemma SecondHidesFirst(p: Package, list: List, a: Delivery, b: Delivery)
    requires p.lists == [list] && Deliveries(list.lines, p.expand, p.tracked) == [a, b]
    requires a.target == b.target && a.source != b.source
    ensures !NoCollisions(p)
    ensures forall binary :: binary in ShipOf(p, p.lists) ==> a.source !in ShipOf(p, p.lists)[binary].Values
  {
    OneList(p, list);
    TwoCollide(Deliveries(list.lines, p.expand, p.tracked), a, b);
    OneBinary(ShipOf(p, p.lists), list.binary, a.target, b.source, a.source);
    assert p.lists[0] == list;
  }

  /**
   Without the no-collision condition the sweep is fooled: a package whose two
   install lines put two files of one name into one directory passes, and the
   first file is installed nowhere.
   */
  lemma CollisionHidesAFile(p: Package, binary: string, one: Line, two: Line, first: Path, second: Path)
    requires p.lists == [List(binary, [one, two])] && one.destination == two.destination
    requires p.expand(one.glob) == [Match(first, false)] && p.expand(two.glob) == [Match(second, false)]
    requires first != second && NameOf(first) == NameOf(second)
    requires forall f :: IsPayload(p, f) ==> f == first || f == second
    ensures Passes(p) && !NoCollisions(p)
    ensures forall b :: b in ShipOf(p, p.lists) ==> first !in ShipOf(p, p.lists)[b].Values
  {
    var list := List(binary, [one, two]);
    var a := Delivery(TargetOf(one.destination, NameOf(first)), first);
    var b := Delivery(TargetOf(two.destination, NameOf(second)), second);
    TwoFiles(one, two, p.expand, p.tracked, first, second);
    SecondHidesFirst(p, list, a, b);
    DeliveredPayloadPasses(p, list, a, b);
  }
}
