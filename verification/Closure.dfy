/**
 The package graph: which locally built packages installing one of them brings
 in, by its dependencies alone or with what it recommends.
 */
module Closure {
  import opened Text
  import opened Control

  type Graph = map<string, Stanza>

  // ---- relationship fields ------------------------------------------------------------------

  function FieldValue(stanza: Stanza, field: string): string {
    if field in stanza then stanza[field] else ""
  }

  /** `alternative.strip().split()[0]`, for every alternative that has a word. */
  function FirstWords(alternatives: seq<string>): set<string> {
    if |alternatives| == 0 then {}
    else
      var words := Words(alternatives[|alternatives| - 1]);
      FirstWords(alternatives[..|alternatives| - 1]) + if words == [] then {} else {words[0]}
  }

  function ClauseNames(clauses: seq<string>): set<string> {
    if |clauses| == 0 then {}
    else ClauseNames(clauses[..|clauses| - 1]) + FirstWords(SplitOn(clauses[|clauses| - 1], '|'))
  }

  /** The packages a relationship field names. */
  function NamesIn(value: string): set<string> {
    ClauseNames(SplitOn(value, ','))
  }

  function Targets(stanza: Stanza, strongOnly: bool): set<string> {
    NamesIn(FieldValue(stanza, "Depends")) + NamesIn(FieldValue(stanza, "Pre-Depends"))
    + if strongOnly then {} else NamesIn(FieldValue(stanza, "Recommends"))
  }

  method CollectNames(value: string, targets: set<string>) returns (r: set<string>)
    ensures r == targets + NamesIn(value)
  {
    r := targets;
    var clauses := SplitOn(value, ',');
    for i := 0 to |clauses|
      invariant r == targets + ClauseNames(clauses[..i])
    {
      assert clauses[..i + 1][..i] == clauses[..i];
      r := CollectFirstWords(SplitOn(clauses[i], '|'), r);
    }
    assert clauses[..|clauses|] == clauses;
  }

  method CollectFirstWords(alternatives: seq<string>, targets: set<string>) returns (r: set<string>)
    ensures r == targets + FirstWords(alternatives)
  {
    r := targets;
    for j := 0 to |alternatives|
      invariant r == targets + FirstWords(alternatives[..j])
    {
      assert alternatives[..j + 1][..j] == alternatives[..j];
      var words := Words(alternatives[j]);
      if words != [] {
        r := r + {words[0]};
      }
    }
    assert alternatives[..|alternatives|] == alternatives;
  }

  method CollectTargets(stanza: Stanza, strongOnly: bool) returns (targets: set<string>)
    ensures targets == Targets(stanza, strongOnly)
  {
    targets := CollectNames(FieldValue(stanza, "Depends"), {});
    targets := CollectNames(FieldValue(stanza, "Pre-Depends"), targets);
    if !strongOnly {
      targets := CollectNames(FieldValue(stanza, "Recommends"), targets);
    }
  }

  // ---- reachability ----------------------------------------------------------------------------

  /** Installing `a` brings in `b`; both are built here. */
  predicate Edge(g: Graph, strongOnly: bool, a: string, b: string) {
    a in g && b in g && b in Targets(g[a], strongOnly)
  }

  /** A walk of one or more edges, as the packages it passes. */
  predicate Walk(g: Graph, strongOnly: bool, path: seq<string>) {
    |path| > 1 && forall i :: 0 < i < |path| ==> Edge(g, strongOnly, path[i - 1], path[i])
  }

  ghost predicate Reaches(g: Graph, strongOnly: bool, root: string, name: string) {
    exists path :: Walk(g, strongOnly, path) && path[0] == root && path[|path| - 1] == name
  }

  lemma OneEdge(g: Graph, strongOnly: bool, a: string, b: string)
    requires Edge(g, strongOnly, a, b)
    ensures Reaches(g, strongOnly, a, b)
  {
    assert Walk(g, strongOnly, [a, b]);
    ReachesBy(g, strongOnly, [a, b]);
  }

  lemma WalkGrows(g: Graph, strongOnly: bool, path: seq<string>, b: string)
    requires Walk(g, strongOnly, path) && Edge(g, strongOnly, path[|path| - 1], b)
    ensures Walk(g, strongOnly, path + [b])
  {
    forall i | 0 < i < |path + [b]|
      ensures Edge(g, strongOnly, (path + [b])[i - 1], (path + [b])[i])
    {
      if i < |path| {
        assert Edge(g, strongOnly, path[i - 1], path[i]);
      }
    }
  }

  lemma ReachesBy(g: Graph, strongOnly: bool, path: seq<string>)
    requires Walk(g, strongOnly, path)
    ensures Reaches(g, strongOnly, path[0], path[|path| - 1])
  {
  }

  lemma OneMoreEdge(g: Graph, strongOnly: bool, root: string, a: string, b: string)
    requires Reaches(g, strongOnly, root, a) && Edge(g, strongOnly, a, b)
    ensures Reaches(g, strongOnly, root, b)
  {
    var path :| Walk(g, strongOnly, path) && path[0] == root && path[|path| - 1] == a;
    WalkGrows(g, strongOnly, path, b);
    ReachesBy(g, strongOnly, path + [b]);
  }

  /** A set that holds the targets of the root and of its own members holds everything reachable. */
  lemma {:induction false} ClosedHoldsWalks(g: Graph, strongOnly: bool, root: string, closed: set<string>,
          path: seq<string>)
    requires forall a, b :: (a == root || a in closed) && Edge(g, strongOnly, a, b) ==> b in closed
    requires Walk(g, strongOnly, path) && path[0] == root
    ensures path[|path| - 1] in closed
    decreases |path|
  {
    var n := |path|;
    if n > 2 {
      var shorter := path[..n - 1];
      assert Walk(g, strongOnly, shorter);
      ClosedHoldsWalks(g, strongOnly, root, closed, shorter);
      assert shorter[n - 2] == path[n - 2];
    }
    assert Edge(g, strongOnly, path[n - 2], path[n - 1]);
  }

  // ---- the worklist ------------------------------------------------------------------------------

  /** Every target of this package that is built here has been reached. */
  ghost predicate Expanded(g: Graph, strongOnly: bool, reached: set<string>, name: string) {
    forall b :: Edge(g, strongOnly, name, b) ==> b in reached
  }

  /** The worklist's state: only reachable packages are reached, and what is not waiting is expanded. */
  ghost predicate Progress(g: Graph, strongOnly: bool, root: string, reached: set<string>, frontier: seq<string>) {
    && reached <= g.Keys
    && (forall name :: name in reached ==> Reaches(g, strongOnly, root, name))
    && (forall name :: name in frontier ==> name == root || name in reached)
    && (forall name :: name == root || name in reached ==> name in frontier || Expanded(g, strongOnly, reached, name))
  }

  /** One package off the worklist, its targets onto it. */
  method Expand(g: Graph, strongOnly: bool, ghost root: string, name: string, reached: set<string>,
          frontier: seq<string>)
    returns (nowReached: set<string>, nowFrontier: seq<string>)
    requires name in g && Progress(g, strongOnly, root, reached, frontier + [name])
    ensures Progress(g, strongOnly, root, nowReached, nowFrontier)
    ensures reached <= nowReached && (nowReached == reached ==> nowFrontier == frontier)
  {
    nowReached, nowFrontier := reached, frontier;
    var targets := CollectTargets(g[name], strongOnly);
    var left := targets;
    while left != {}
      invariant left <= targets
      invariant reached <= nowReached && (nowReached == reached ==> nowFrontier == frontier)
      invariant Progress(g, strongOnly, root, nowReached, nowFrontier + [name])
      invariant forall b :: b in targets - left && b in g ==> b in nowReached
      decreases |left|
    {
      var target :| target in left;
      left := left - {target};
      if target in g && target !in nowReached {
        Reached(g, strongOnly, root, name, target, nowReached, nowFrontier);
        nowReached, nowFrontier := nowReached + {target}, nowFrontier + [target];
      }
    }
    assert targets - left == targets;
    Settled(g, strongOnly, root, name, nowReached, nowFrontier);
  }

  lemma Reached(g: Graph, strongOnly: bool, root: string, name: string, target: string, reached: set<string>,
          frontier: seq<string>)
    requires Progress(g, strongOnly, root, reached, frontier + [name])
    requires Edge(g, strongOnly, name, target)
    ensures Progress(g, strongOnly, root, reached + {target}, frontier + [target] + [name])
  {
    assert name in frontier + [name];
    if name in reached {
      OneMoreEdge(g, strongOnly, root, name, target);
    } else {
      OneEdge(g, strongOnly, root, target);
    }
    var now, waiting := reached + {target}, frontier + [target] + [name];
    forall other | other == root || other in now
      ensures other in waiting || Expanded(g, strongOnly, now, other)
    {
      if other != target {
        assert other in frontier + [name] || Expanded(g, strongOnly, reached, other);
      }
    }
    forall other | other in waiting
      ensures other == root || other in now
    {
      assert other == target || other in frontier + [name];
    }
  }

  /** An expanded package need not wait any longer. */
  lemma Settled(g: Graph, strongOnly: bool, root: string, name: string, reached: set<string>, frontier: seq<string>)
    requires Progress(g, strongOnly, root, reached, frontier + [name]) && Expanded(g, strongOnly, reached, name)
    ensures Progress(g, strongOnly, root, reached, frontier)
  {
    forall other | other == root || other in reached
      ensures other in frontier || Expanded(g, strongOnly, reached, other)
    {
      assert other in frontier + [name] || Expanded(g, strongOnly, reached, other);
    }
    forall other | other in frontier
      ensures other == root || other in reached
    {
      assert other in frontier + [name];
    }
  }

  /** With nothing waiting, everything reachable has been reached. */
  lemma NothingWaiting(g: Graph, strongOnly: bool, root: string, reached: set<string>, name: string)
    requires Progress(g, strongOnly, root, reached, []) && Reaches(g, strongOnly, root, name)
    ensures name in reached
  {
    forall a, b | (a == root || a in reached) && Edge(g, strongOnly, a, b)
      ensures b in reached
    {
      assert a !in [];
      assert Expanded(g, strongOnly, reached, a);
    }
    var path :| Walk(g, strongOnly, path) && path[0] == root && path[|path| - 1] == name;
    ClosedHoldsWalks(g, strongOnly, root, reached, path);
  }

  /** One round of the worklist. */
  method Round(g: Graph, strongOnly: bool, ghost root: string, reached: set<string>, frontier: seq<string>)
    returns (nowReached: set<string>, nowFrontier: seq<string>)
    requires frontier != [] && Progress(g, strongOnly, root, reached, frontier)
    ensures Progress(g, strongOnly, root, nowReached, nowFrontier)
    ensures |g.Keys - nowReached| < |g.Keys - reached| || (nowReached == reached && |nowFrontier| < |frontier|)
  {
    var name := frontier[|frontier| - 1];
    assert frontier == frontier[..|frontier| - 1] + [name];
    nowReached, nowFrontier := reached, frontier[..|frontier| - 1];
    if name !in g {
      Settled(g, strongOnly, root, name, reached, nowFrontier);
      return;
    }
    nowReached, nowFrontier := Expand(g, strongOnly, root, name, reached, nowFrontier);
    if nowReached != reached {
      FewerLeft(g.Keys, reached, nowReached);
    }
  }

  /** Exactly the local packages reachable by one or more edges, whatever the graph's cycles. */
  method ClosureOf(root: string, g: Graph, strongOnly: bool) returns (reached: set<string>)
    ensures forall name :: name in reached <==> Reaches(g, strongOnly, root, name)
  {
    reached := {};
    var frontier := [root];
    while frontier != []
      invariant Progress(g, strongOnly, root, reached, frontier)
      decreases |g.Keys - reached|, |frontier|
    {
      reached, frontier := Round(g, strongOnly, root, reached, frontier);
    }
    forall name | Reaches(g, strongOnly, root, name)
      ensures name in reached
    {
      NothingWaiting(g, strongOnly, root, reached, name);
    }
  }

  lemma FewerLeft(all: set<string>, was: set<string>, now: set<string>)
    requires was < now <= all
    ensures |all - now| < |all - was|
  {
    var x :| x in now && x !in was;
    assert all - was == (all - now) + (now - was);
    assert x in now - was;
    assert |all - was| == |all - now| + |now - was|;
  }

  /** What depends alone reach, depends and recommends reach too. */
  lemma StrongIsSoft(g: Graph, root: string, name: string)
    requires Reaches(g, true, root, name)
    ensures Reaches(g, false, root, name)
  {
    var path :| Walk(g, true, path) && path[0] == root && path[|path| - 1] == name;
    assert Walk(g, false, path) by {
      forall i | 0 < i < |path|
        ensures Edge(g, false, path[i - 1], path[i])
      {
        assert Edge(g, true, path[i - 1], path[i]);
      }
    }
  }

  // ---- what a field names --------------------------------------------------------------------------

  predicate NamesIt(alternative: string, name: string) {
    Words(alternative) != [] && Words(alternative)[0] == name
  }

  /** Some alternative of the clause names the package. */
  predicate ClauseNamesIt(clause: string, name: string) {
    exists a :: a in SplitOn(clause, '|') && NamesIt(a, name)
  }

  lemma {:induction false} FirstWordsMeans(alternatives: seq<string>, name: string)
    ensures name in FirstWords(alternatives) <==> exists a :: a in alternatives && NamesIt(a, name)
  {
    if |alternatives| > 0 {
      var n := |alternatives| - 1;
      FirstWordsMeans(alternatives[..n], name);
      assert forall a :: a in alternatives <==> a in alternatives[..n] || a == alternatives[n];
      assert NamesIt(alternatives[n], name) ==> name in FirstWords(alternatives);
    }
  }

  lemma {:induction false} ClauseNamesMeans(clauses: seq<string>, name: string)
    ensures name in ClauseNames(clauses) <==> exists c :: c in clauses && ClauseNamesIt(c, name)
  {
    if |clauses| > 0 {
      var n := |clauses| - 1;
      ClauseNamesMeans(clauses[..n], name);
      FirstWordsMeans(SplitOn(clauses[n], '|'), name);
      assert name in FirstWords(SplitOn(clauses[n], '|')) <==> ClauseNamesIt(clauses[n], name);
      if c :| c in clauses && ClauseNamesIt(c, name) {
        assert c in clauses[..n] || c == clauses[n];
      }
      assert clauses[n] in clauses;
    }
  }

  /** A field names a package exactly when the package is the first word of an alternative of a clause. */
  lemma NamesInMeans(value: string, name: string)
    ensures name in NamesIn(value) <==> exists c :: c in SplitOn(value, ',') && ClauseNamesIt(c, name)
  {
    ClauseNamesMeans(SplitOn(value, ','), name);
  }

  /** The field is there, and names the package. */
  predicate FieldNames(stanza: Stanza, field: string, name: string) {
    field in stanza && exists c :: c in SplitOn(stanza[field], ',') && ClauseNamesIt(c, name)
  }

  lemma FieldNamesIff(stanza: Stanza, field: string, name: string)
    ensures name in NamesIn(FieldValue(stanza, field)) <==> FieldNames(stanza, field, name)
  {
    NamesInMeans(FieldValue(stanza, field), name);
    if field !in stanza {
      SplitIs("", ',', "");
      SplitIs("", '|', "");
      OneWord("");
    }
  }

  /** Two local packages are joined exactly when one of the three fields of the first names the second. */
  lemma EdgeIff(g: Graph, strongOnly: bool, a: string, b: string)
    ensures Edge(g, strongOnly, a, b) <==>
      && a in g && b in g
      && (|| FieldNames(g[a], "Depends", b) || FieldNames(g[a], "Pre-Depends", b)
          || (!strongOnly && FieldNames(g[a], "Recommends", b)))
  {
    if a in g {
      FieldNamesIff(g[a], "Depends", b);
      FieldNamesIff(g[a], "Pre-Depends", b);
      FieldNamesIff(g[a], "Recommends", b);
    }
  }

  // ---- the pillars ------------------------------------------------------------------------------------

  const DESKTOP := "shadowfetch-desktop"

  const PILLARS := {
    "shadowfetch-control-center", "shadowfetch-fireline", "shadowfetch-missions", "shadowfetch-phoenix",
    "shadowfetch-fireproof", "shadowfetch-firewatchd", "shadowfetch-hwscan", "shadowfetch-ember",
    "shadowfetch-menus", "shadowfetch-welcome"
  }

  datatype Verdict = Holds | NoDesktop | PillarsMissing(missing: set<string>) | Undeclared(secret: set<string>)

  /**
   The pillar check: it holds exactly when the desktop is built here, every pillar
   is reachable through dependencies, and every local package that an image list
   names is the desktop or reachable with recommendations; otherwise it names the
   packages at fault.
   */
  method CheckPillarClosure(g: Graph, named: set<string>) returns (v: Verdict)
    ensures v.NoDesktop? <==> DESKTOP !in g
    ensures v.PillarsMissing? ==>
      v.missing != {} && forall p :: p in v.missing <==> p in PILLARS && !Reaches(g, true, DESKTOP, p)
    ensures v.Undeclared? ==> v.secret != {}
    ensures v.Undeclared?
            ==> forall p :: p in v.secret <==> p in named && p in g && p != DESKTOP && !Reaches(g, false, DESKTOP, p)
    ensures v.Holds?
            <==> DESKTOP in g && (forall p :: p in PILLARS ==> Reaches(g, true, DESKTOP, p))
                 && (forall p :: p in named && p in g && p != DESKTOP ==> Reaches(g, false, DESKTOP, p))
  {
    if DESKTOP !in g {
      return NoDesktop;
    }
    var strong := ClosureOf(DESKTOP, g, true);
    var missing := PILLARS - strong;
    if missing != {} {
      var one :| one in missing;
      return PillarsMissing(missing);
    }
    forall p | p in PILLARS
      ensures Reaches(g, true, DESKTOP, p)
    {
      assert p !in missing;
    }
    var soft := ClosureOf(DESKTOP, g, false);
    var secret := set p | p in named && p in g && p != DESKTOP && p !in soft;
    if secret != {} {
      var one :| one in secret;
      return Undeclared(secret);
    }
    forall p | p in named && p in g && p != DESKTOP
      ensures Reaches(g, false, DESKTOP, p)
    {
      assert p !in secret;
    }
    return Holds;
  }
}
