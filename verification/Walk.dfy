/**
 The reachability walk of the drift gate: every statement except those in a
 branch that a literal test decides against.
 */
module Walk {
  import opened Outcomes

  /** A literal test is decided by its own truth value; any other test is not. */
  datatype Test = Literal(truth: bool) | Computed

  datatype Node =
    | Leaf(id: nat)
    | Import(names: seq<string>)       // the modules named, not the names they are bound to
    | ImportFrom(source: Option<string>, names: seq<string>, level: nat)  // `from ..source import names`: level 2
    | Return
    | Raise
    | Break
    | Continue
    | If(test: Test, body: seq<Node>, orelse: seq<Node>)
    | While(test: Test, body: seq<Node>, orelse: seq<Node>)  // `for` is a loop whose test is computed
    | With(body: seq<Node>)
    | Try(body: seq<Node>, handlers: seq<Handler>, orelse: seq<Node>, final: seq<Node>)
    | Function(body: seq<Node>)
    | Body(body: seq<Node>)            // a module or a class

  datatype Handler = Handler(body: seq<Node>)

  // ---- the walk -----------------------------------------------------------------

  function WalkReachable(n: Node): seq<Node>
    decreases n
  {
    match n
    case If(test, body, orelse) =>
      [n] + (if test == Literal(false) then [] else WalkAll(body))
          + (if test == Literal(true) then [] else WalkAll(orelse))
    case While(test, body, orelse) =>
      [n] + (if test == Literal(false) then [] else WalkAll(body))
          + (if test == Literal(true) then [] else WalkAll(orelse))
    case With(body) => [n] + WalkAll(body)
    case Try(body, handlers, orelse, final) =>
      [n] + WalkAll(body) + WalkHandlers(handlers) + WalkAll(orelse) + WalkAll(final)
    case Function(body) => [n] + WalkAll(body)
    case Body(body) => [n] + WalkAll(body)
    case _ => [n]
  }

  function WalkAll(ns: seq<Node>): seq<Node>
    decreases ns
  {
    if |ns| == 0 then [] else WalkReachable(ns[0]) + WalkAll(ns[1..])
  }

  function WalkHandlers(hs: seq<Handler>): seq<Node>
    decreases hs
  {
    if |hs| == 0 then [] else WalkHandler(hs[0]) + WalkHandlers(hs[1..])
  }

  function WalkHandler(h: Handler): seq<Node>
    decreases h
  {
    WalkAll(h.body)
  }

  /** The gate's test on one statement. */
  predicate NamesModule(n: Node, name: string) {
    (n.Import? && name in n.names) || (n.ImportFrom? && n.source == Some(name))
  }

  /** `imports_module`: some yielded node imports it. */
  method ImportsModule(tree: Node, name: string) returns (found: bool)
    ensures found <==> exists n :: n in WalkReachable(tree) && NamesModule(n, name)
  {
    var nodes := WalkReachable(tree);
    for i := 0 to |nodes|
      invariant forall j :: 0 <= j < i ==> !NamesModule(nodes[j], name)
    {
      if NamesModule(nodes[i], name) {
        return true;
      }
    }
    return false;
  }

  // ---- how a statement can end ----------------------------------------------------

  /** Cut: the run is not followed any further. */
  datatype End = Falls | Breaks | Continues | Returns | Raises | Cut

  /** The ways a list ends: a statement that does not fall through ends it. */
  function EndsOf(ns: seq<Node>): (r: set<End>)
    ensures Cut !in r
    decreases ns
  {
    if |ns| == 0 then {Falls}
    else if Falls in Ends(ns[0]) then Ends(ns[0]) - {Falls} + EndsOf(ns[1..])
    else Ends(ns[0])
  }

  /** The ways one of the handlers ends. */
  function EndsOfHandlers(hs: seq<Handler>): (r: set<End>)
    ensures Cut !in r
    decreases hs
  {
    if |hs| == 0 then {} else EndsOfHandler(hs[0]) + EndsOfHandlers(hs[1..])
  }

  function EndsOfHandler(h: Handler): (r: set<End>)
    ensures Cut !in r
    decreases h
  {
    EndsOf(h.body)
  }

  /** What can be the end of a `try` before its last part runs, from the ends of its body, handlers and else part. */
  function CoreEnds(body: set<End>, handlers: set<End>, orelse: set<End>): set<End> {
    body - {Falls} + (if Falls in body then orelse else {}) + (if Raises in body then handlers else {})
  }

  /** The ways a statement can end; one that cannot fall through always diverts control. */
  function Ends(n: Node): (r: set<End>)
    ensures Cut !in r
    decreases n
  {
    match n
    case Return => {Returns, Raises}
    case Raise => {Raises}
    case Break => {Breaks}
    case Continue => {Continues}
    case If(test, body, orelse) =>
      (match test
       case Literal(truth) => if truth then EndsOf(body) else EndsOf(orelse)
       case Computed => {Raises} + EndsOf(body) + EndsOf(orelse))
    case While(test, body, orelse) =>
      var turn := if test == Literal(false) then {} else EndsOf(body);
      (if test == Computed then {Raises} else {})
      + (if Breaks in turn then {Falls} else {}) + turn * {Returns, Raises}
      + (if test == Literal(true) then {} else EndsOf(orelse))
    case With(body) => {Raises} + EndsOf(body) + if Raises in EndsOf(body) then {Falls} else {}
    case Try(body, handlers, orelse, final) =>
      var core, last := CoreEnds(EndsOf(body), EndsOfHandlers(handlers), EndsOf(orelse)), EndsOf(final);
      if core == {} then {} else if Falls in last then last - {Falls} + core else last
    case Body(body) => EndsOf(body)
    case _ => {Falls, Raises}
  }

  // ---- execution -----------------------------------------------------------------

  function Flatten(parts: seq<seq<Node>>): seq<Node> {
    if |parts| == 0 then [] else parts[0] + Flatten(parts[1..])
  }

  /**
   A run of a statement: the statements it executes, in order, and how it ends.
   Any statement may raise, save those that leave control in another way; a test
   that is not a literal goes either way; a `with` may swallow an exception; a
   handler may or may not catch one; a function body runs any number of times
   behind its definition; and a run may be followed only so far.
   */
  ghost predicate Executes(n: Node, trace: seq<Node>, end: End)
    decreases n, 2
  {
    |trace| > 0 && trace[0] == n && ((end == Cut && |trace| == 1) || Inside(n, trace[1..], end))
  }

  ghost predicate Inside(n: Node, rest: seq<Node>, end: End)
    decreases n, 1
  {
    match n
    case Return => rest == [] && (end == Returns || end == Raises)
    case Raise => rest == [] && end == Raises
    case Break => rest == [] && end == Breaks
    case Continue => rest == [] && end == Continues
    case If(test, body, orelse) =>
      || (test == Computed && rest == [] && end == Raises)
      || (test != Literal(false) && RunsList(body, rest, end))
      || (test != Literal(true) && RunsList(orelse, rest, end))
    case While(_, _, _) =>
      exists turns: seq<seq<Node>>, tail: seq<Node> :: Turns(n, turns) && LoopEnd(n, tail, end)
          && rest == Flatten(turns) + tail
    case With(body) =>
      (rest == [] && end == Raises) || RunsList(body, rest, end) || (end == Falls && RunsList(body, rest, Raises))
    case Try(_, _, _, _) =>
      exists core: seq<Node>, last: seq<Node>, e: End :: CoreRun(n, core, e) && rest == core + last
          && LastRun(n, e, last, end)
    case Function(_) =>
      exists calls: seq<seq<Node>> :: Calls(n, calls) && rest == Flatten(calls) && end in {Falls, Raises, Cut}
    case Body(body) => RunsList(body, rest, end)
    case _ => rest == [] && (end == Falls || end == Raises)
  }

  /** Statements one after the other, up to the first that does not fall through. */
  ghost predicate RunsList(ns: seq<Node>, trace: seq<Node>, end: End)
    decreases ns, 1
  {
    || (trace == [] && (end == Cut || (ns == [] && end == Falls)))
    || (|ns| > 0 && exists k, e: End ::
          0 <= k <= |trace| && Executes(ns[0], trace[..k], e) && GoesOn(ns, trace[k..], e, end))
  }

  /** What follows the first statement of a list. */
  ghost predicate GoesOn(ns: seq<Node>, rest: seq<Node>, e: End, end: End)
    requires |ns| > 0
    decreases ns, 0
  {
    if e == Falls then RunsList(ns[1..], rest, end) else rest == [] && end == e
  }

  /** Turns of a loop after which it goes on. */
  ghost predicate Turns(n: Node, turns: seq<seq<Node>>)
    requires n.While?
    decreases n, 0
  {
    forall i :: 0 <= i < |turns| ==>
      n.test != Literal(false) && (RunsList(n.body, turns[i], Falls) || RunsList(n.body, turns[i], Continues))
  }

  /** How a loop ends: in its test, in its else part, or in a turn that leaves it. */
  ghost predicate LoopEnd(n: Node, tail: seq<Node>, end: End)
    requires n.While?
    decreases n, 0
  {
    || (tail == [] && (end == Cut || (n.test == Computed && end == Raises)))
    || (n.test != Literal(true) && RunsList(n.orelse, tail, end))
    || (n.test != Literal(false) && RunsList(n.body, tail, if end == Falls then Breaks else end)
        && end in {Falls, Returns, Raises, Cut})
  }

  /** A `try` up to its last part. */
  ghost predicate CoreRun(n: Node, core: seq<Node>, e: End)
    requires n.Try?
    decreases n, 0
  {
    exists k, be: End :: 0 <= k <= |core| && RunsList(n.body, core[..k], be) && AfterBody(n, be, core[k..], e)
  }

  ghost predicate AfterBody(n: Node, be: End, tail: seq<Node>, e: End)
    requires n.Try?
    decreases n, -1
  {
    if be == Falls then RunsList(n.orelse, tail, e)
    else
      || (tail == [] && e == be)
      || (be == Raises && exists i :: 0 <= i < |n.handlers| && RunsHandler(n.handlers[i], tail, e))
  }

  ghost predicate RunsHandler(h: Handler, trace: seq<Node>, end: End)
    decreases h
  {
    RunsList(h.body, trace, end)
  }

  /** The last part runs however the rest ended, and its own way of leaving prevails. */
  ghost predicate LastRun(n: Node, e: End, last: seq<Node>, end: End)
    requires n.Try?
    decreases n, 0
  {
    if e == Cut then last == [] && end == Cut
    else exists le: End :: RunsList(n.final, last, le) && end == if le == Falls then e else le
  }

  ghost predicate Calls(n: Node, calls: seq<seq<Node>>)
    requires n.Function?
    decreases n, 0
  {
    forall i :: 0 <= i < |calls| ==> exists e: End :: RunsList(n.body, calls[i], e)
  }

  // ---- what can be executed ------------------------------------------------------------

  /**
   The statement stands in an open place of `n`: no statement before it, in a list around
   it, always diverts control.
   */
  predicate Open(n: Node, m: Node)
    decreases n
  {
    m == n ||
    match n
    case If(test, body, orelse) =>
      (test != Literal(false) && OpenIn(body, m)) || (test != Literal(true) && OpenIn(orelse, m))
    case While(test, body, orelse) =>
      (test != Literal(false) && OpenIn(body, m)) || (test != Literal(true) && OpenIn(orelse, m))
    case With(body) => OpenIn(body, m)
    case Try(body, handlers, orelse, final) =>
      || OpenIn(body, m)
      || (Raises in EndsOf(body) && exists i :: 0 <= i < |handlers| && OpenInHandler(handlers[i], m))
      || (Falls in EndsOf(body) && OpenIn(orelse, m))
      || (CoreEnds(EndsOf(body), EndsOfHandlers(handlers), EndsOf(orelse)) != {} && OpenIn(final, m))
    case Function(body) => OpenIn(body, m)
    case Body(body) => OpenIn(body, m)
    case _ => false
  }

  predicate OpenIn(ns: seq<Node>, m: Node)
    decreases ns
  {
    exists k :: 0 <= k < |ns| && AllFall(ns, k) && Open(ns[k], m)
  }

  /** None of the first `k` statements always diverts control. */
  predicate AllFall(ns: seq<Node>, k: nat) {
    forall j :: 0 <= j < k <= |ns| ==> Falls in Ends(ns[j])
  }

  predicate OpenInHandler(h: Handler, m: Node)
    decreases h
  {
    OpenIn(h.body, m)
  }

  lemma OpenFirst(ns: seq<Node>, m: Node)
    requires |ns| > 0 && Open(ns[0], m)
    ensures OpenIn(ns, m)
  {
    assert AllFall(ns, 0);
  }

  lemma OpenLater(ns: seq<Node>, m: Node)
    requires |ns| > 0 && Falls in Ends(ns[0]) && OpenIn(ns[1..], m)
    ensures OpenIn(ns, m)
  {
    var k :| 0 <= k < |ns[1..]| && AllFall(ns[1..], k) && Open(ns[1..][k], m);
    forall j | 0 <= j < k + 1 <= |ns|
      ensures Falls in Ends(ns[j])
    {
      assert j > 0 ==> ns[j] == ns[1..][j - 1];
    }
    assert ns[k + 1] == ns[1..][k] && AllFall(ns, k + 1);
  }

  // ---- everything executed is open ------------------------------------------------------

  /** A run ends in one of the statement's ways, or is cut. */
  lemma {:induction false} EndsAreEnds(n: Node, rest: seq<Node>, end: End)
    requires Inside(n, rest, end) && end != Cut
    ensures end in Ends(n)
    decreases n
  {
    match n
    case If(test, body, orelse) =>
      if test != Literal(false) && RunsList(body, rest, end) {
        ListEnds(body, rest, end);
      } else if test != Literal(true) && RunsList(orelse, rest, end) {
        ListEnds(orelse, rest, end);
      }
    case While(test, body, orelse) =>
      var turns: seq<seq<Node>>, tail: seq<Node> :| Turns(n, turns) && LoopEnd(n, tail, end)
          && rest == Flatten(turns) + tail;
      if test != Literal(true) && RunsList(orelse, tail, end) {
        ListEnds(orelse, tail, end);
      } else if test != Literal(false) && RunsList(body, tail, if end == Falls then Breaks else end) {
        ListEnds(body, tail, if end == Falls then Breaks else end);
      }
    case With(body) =>
      if RunsList(body, rest, end) {
        ListEnds(body, rest, end);
      } else if end == Falls && RunsList(body, rest, Raises) {
        ListEnds(body, rest, Raises);
      }
    case Try(_, _, _, final) =>
      var core: seq<Node>, last: seq<Node>, e: End :| CoreRun(n, core, e) && rest == core + last
          && LastRun(n, e, last, end);
      CoreEndsAreEnds(n, core, e);
      var le: End :| RunsList(final, last, le) && end == if le == Falls then e else le;
      ListEnds(final, last, le);
    case Body(body) => ListEnds(body, rest, end);
    case _ =>
  }

  lemma {:induction false} ListEnds(ns: seq<Node>, trace: seq<Node>, end: End)
    requires RunsList(ns, trace, end) && end != Cut
    ensures end in EndsOf(ns)
    decreases ns
  {
    if |ns| > 0 {
      var k, e: End :| 0 <= k <= |trace| && Executes(ns[0], trace[..k], e) && GoesOn(ns, trace[k..], e, end);
      EndsAreEnds(ns[0], trace[..k][1..], e);
      if e == Falls {
        ListEnds(ns[1..], trace[k..], end);
      }
    }
  }

  lemma {:induction false} CoreEndsAreEnds(n: Node, core: seq<Node>, e: End)
    requires n.Try? && CoreRun(n, core, e) && e != Cut
    ensures e in CoreEnds(EndsOf(n.body), EndsOfHandlers(n.handlers), EndsOf(n.orelse))
    decreases n, 0
  {
    var k, be: End :| 0 <= k <= |core| && RunsList(n.body, core[..k], be) && AfterBody(n, be, core[k..], e);
    if be != Cut {
      ListEnds(n.body, core[..k], be);
      if be == Falls {
        ListEnds(n.orelse, core[k..], e);
      } else if e != be || core[k..] != [] {
        var i :| 0 <= i < |n.handlers| && RunsHandler(n.handlers[i], core[k..], e);
        HandlerEnds(n.handlers, i, core[k..], e);
      }
    }
  }

  lemma {:induction false} HandlerEnds(hs: seq<Handler>, i: nat, trace: seq<Node>, end: End)
    requires i < |hs| && RunsHandler(hs[i], trace, end) && end != Cut
    ensures end in EndsOfHandlers(hs)
    decreases hs
  {
    if i == 0 {
      ListEnds(hs[0].body, trace, end);
    } else {
      HandlerEnds(hs[1..], i - 1, trace, end);
    }
  }

  lemma {:induction false} InFlatten(parts: seq<seq<Node>>, m: Node) returns (i: nat)
    requires m in Flatten(parts)
    ensures i < |parts| && m in parts[i]
  {
    if m in parts[0] {
      i := 0;
    } else {
      i := InFlatten(parts[1..], m);
      i := i + 1;
    }
  }

  lemma {:induction false} InsideIsOpen(n: Node, rest: seq<Node>, end: End, m: Node)
    requires Inside(n, rest, end) && m in rest
    ensures Open(n, m)
    decreases n, 1
  {
    match n
    case If(test, body, orelse) =>
      if test != Literal(false) && RunsList(body, rest, end) {
        ListIsOpen(body, rest, end, m);
      } else {
        ListIsOpen(orelse, rest, end, m);
      }
    case While(_, _, _) =>
      var turns: seq<seq<Node>>, tail: seq<Node> :| Turns(n, turns) && LoopEnd(n, tail, end)
          && rest == Flatten(turns) + tail;
      LoopIsOpen(n, turns, tail, end, m);
    case With(body) =>
      if RunsList(body, rest, end) {
        ListIsOpen(body, rest, end, m);
      } else {
        ListIsOpen(body, rest, Raises, m);
      }
    case Try(_, _, _, final) =>
      var core: seq<Node>, last: seq<Node>, e: End :| CoreRun(n, core, e) && rest == core + last
          && LastRun(n, e, last, end);
      if m in core {
        CoreIsOpen(n, core, e, m);
      } else {
        CoreEndsAreEnds(n, core, e);
        var le: End :| RunsList(final, last, le);
        ListIsOpen(final, last, le, m);
      }
    case Function(_) =>
      var calls: seq<seq<Node>> :| Calls(n, calls) && rest == Flatten(calls);
      CallIsOpen(n, calls, m);
    case Body(body) => ListIsOpen(body, rest, end, m);
    case _ =>
  }

  lemma {:induction false} LoopIsOpen(n: Node, turns: seq<seq<Node>>, tail: seq<Node>, end: End, m: Node)
    requires n.While? && Turns(n, turns) && LoopEnd(n, tail, end) && m in Flatten(turns) + tail
    ensures Open(n, m)
    decreases n, 0
  {
    if m in Flatten(turns) {
      var i := InFlatten(turns, m);
      ListIsOpen(n.body, turns[i], if RunsList(n.body, turns[i], Falls) then Falls else Continues, m);
    } else if n.test != Literal(true) && RunsList(n.orelse, tail, end) {
      ListIsOpen(n.orelse, tail, end, m);
    } else {
      ListIsOpen(n.body, tail, if end == Falls then Breaks else end, m);
    }
  }

  lemma {:induction false} CallIsOpen(n: Node, calls: seq<seq<Node>>, m: Node)
    requires n.Function? && Calls(n, calls) && m in Flatten(calls)
    ensures Open(n, m)
    decreases n, 0
  {
    var i := InFlatten(calls, m);
    var e: End :| RunsList(n.body, calls[i], e);
    ListIsOpen(n.body, calls[i], e, m);
  }

  lemma {:induction false} CoreIsOpen(n: Node, core: seq<Node>, e: End, m: Node)
    requires n.Try? && CoreRun(n, core, e) && m in core
    ensures Open(n, m)
    decreases n, 0
  {
    var k, be: End :| 0 <= k <= |core| && RunsList(n.body, core[..k], be) && AfterBody(n, be, core[k..], e);
    if m in core[..k] {
      ListIsOpen(n.body, core[..k], be, m);
    } else {
      assert m in core[k..] && be != Cut;
      ListEnds(n.body, core[..k], be);
      if be == Falls {
        ListIsOpen(n.orelse, core[k..], e, m);
      } else {
        var i :| 0 <= i < |n.handlers| && RunsHandler(n.handlers[i], core[k..], e);
        ListIsOpen(n.handlers[i].body, core[k..], e, m);
        assert OpenInHandler(n.handlers[i], m);
      }
    }
  }

  lemma {:induction false} ListIsOpen(ns: seq<Node>, trace: seq<Node>, end: End, m: Node)
    requires RunsList(ns, trace, end) && m in trace
    ensures OpenIn(ns, m)
    decreases ns
  {
    var k, e: End :| 0 <= k <= |trace| && Executes(ns[0], trace[..k], e) && GoesOn(ns, trace[k..], e, end);
    if m in trace[..k] {
      if m != ns[0] {
        InsideIsOpen(ns[0], trace[..k][1..], e, m);
      }
      OpenFirst(ns, m);
    } else {
      assert m in trace[k..] && e == Falls;
      EndsAreEnds(ns[0], trace[..k][1..], e);
      ListIsOpen(ns[1..], trace[k..], end, m);
      OpenLater(ns, m);
    }
  }

  // ---- everything open is executed by some run ------------------------------------------

  lemma PutFirst(ns: seq<Node>, first: seq<Node>, rest: seq<Node>, e: End, end: End)
    requires |ns| > 0 && Executes(ns[0], first, e) && GoesOn(ns, rest, e, end)
    ensures RunsList(ns, first + rest, end)
  {
    assert (first + rest)[..|first|] == first && (first + rest)[|first|..] == rest;
  }

  /** Each way of ending is the end of some run. */
  lemma {:induction false} EndReached(n: Node, end: End) returns (rest: seq<Node>)
    requires end in Ends(n)
    ensures Inside(n, rest, end)
    decreases n, 1
  {
    rest := [];
    match n
    case If(test, body, orelse) =>
      if test != Literal(false) && end in EndsOf(body) {
        rest := ListEndReached(body, end);
      } else if test != Literal(true) && end in EndsOf(orelse) {
        rest := ListEndReached(orelse, end);
      }
    case While(_, _, _) => rest := LoopEndReached(n, end);
    case With(body) =>
      if end in EndsOf(body) {
        rest := ListEndReached(body, end);
      } else if end == Falls {
        rest := ListEndReached(body, Raises);
      }
    case Try(_, _, _, _) => rest := TryEndReached(n, end);
    case Function(_) =>
      assert Calls(n, []) && Flatten([]) == [];
    case Body(body) => rest := ListEndReached(body, end);
    case _ =>
  }

  lemma {:induction false} LoopEndReached(n: Node, end: End) returns (rest: seq<Node>)
    requires n.While? && end in Ends(n)
    ensures Inside(n, rest, end)
    decreases n, 0
  {
    var left := if end == Falls then Breaks else end;
    if n.test != Literal(true) && end in EndsOf(n.orelse) {
      rest := ListEndReached(n.orelse, end);
    } else if n.test != Literal(false) && left in EndsOf(n.body) && end in {Falls, Returns, Raises} {
      rest := ListEndReached(n.body, left);
    } else {
      rest := [];
    }
    FirstTurn(n, rest, end);
  }

  /** A loop that is left in its first turn. */
  lemma FirstTurn(n: Node, tail: seq<Node>, end: End)
    requires n.While? && LoopEnd(n, tail, end)
    ensures Inside(n, tail, end)
  {
    assert Turns(n, []) && tail == Flatten([]) + tail;
  }

  lemma {:induction false} TryEndReached(n: Node, end: End) returns (rest: seq<Node>)
    requires n.Try? && end in Ends(n)
    ensures Inside(n, rest, end)
    decreases n, 0
  {
    var core := CoreEnds(EndsOf(n.body), EndsOfHandlers(n.handlers), EndsOf(n.orelse));
    var e, le := end, Falls;
    if end !in core || Falls !in EndsOf(n.final) {
      e :| e in core;
      le := end;
    }
    var before := CoreEndReached(n, e);
    var last := ListEndReached(n.final, le);
    assert LastRun(n, e, last, end);
    rest := before + last;
  }

  lemma {:induction false} CoreEndReached(n: Node, e: End) returns (core: seq<Node>)
    requires n.Try? && e in CoreEnds(EndsOf(n.body), EndsOfHandlers(n.handlers), EndsOf(n.orelse))
    ensures e != Cut && CoreRun(n, core, e)
    decreases n, -1
  {
    var tail := [];
    var be := e;
    if e == Falls || e !in EndsOf(n.body) {
      if Falls in EndsOf(n.body) && e in EndsOf(n.orelse) {
        be := Falls;
        tail := ListEndReached(n.orelse, e);
      } else {
        var i;
        be := Raises;
        i, tail := HandlerEndReached(n.handlers, e);
      }
    }
    var first := ListEndReached(n.body, be);
    core := first + tail;
    assert core[..|first|] == first && core[|first|..] == tail;
  }

  lemma {:induction false} HandlerEndReached(hs: seq<Handler>, end: End) returns (i: nat, trace: seq<Node>)
    requires end in EndsOfHandlers(hs)
    ensures i < |hs| && RunsHandler(hs[i], trace, end)
    decreases hs
  {
    if end in EndsOfHandler(hs[0]) {
      i := 0;
      trace := ListEndReached(hs[0].body, end);
    } else {
      i, trace := HandlerEndReached(hs[1..], end);
      i := i + 1;
    }
  }

  lemma {:induction false} ListEndReached(ns: seq<Node>, end: End) returns (trace: seq<Node>)
    requires end in EndsOf(ns)
    ensures RunsList(ns, trace, end)
    decreases ns
  {
    if |ns| == 0 {
      trace := [];
    } else {
      var goesOn := end == Falls || end !in Ends(ns[0]);
      var e := if goesOn then Falls else end;
      var rest := EndReached(ns[0], e);
      var first := [ns[0]] + rest;
      assert first[1..] == rest;
      var tail := [];
      if goesOn {
        tail := ListEndReached(ns[1..], end);
      }
      PutFirst(ns, first, tail, e, end);
      trace := first + tail;
    }
  }

  /** A run that is followed as far as an open statement. */
  lemma {:induction false} OpenReached(n: Node, m: Node) returns (rest: seq<Node>)
    requires Open(n, m) && m != n
    ensures Inside(n, rest, Cut) && m in rest
    decreases n, 1
  {
    match n
    case If(test, body, orelse) =>
      if test != Literal(false) && OpenIn(body, m) {
        rest := OpenInReached(body, m);
      } else {
        rest := OpenInReached(orelse, m);
      }
    case While(test, body, orelse) =>
      if test != Literal(false) && OpenIn(body, m) {
        rest := OpenInReached(body, m);
      } else {
        rest := OpenInReached(orelse, m);
      }
      FirstTurn(n, rest, Cut);
    case With(body) => rest := OpenInReached(body, m);
    case Try(_, _, _, _) => rest := OpenInTryReached(n, m);
    case Function(body) =>
      rest := OpenInReached(body, m);
      OneCall(n, rest, Cut);
    case Body(body) => rest := OpenInReached(body, m);
    case _ =>
  }

  lemma OneCall(n: Node, call: seq<Node>, end: End)
    requires n.Function? && RunsList(n.body, call, end)
    ensures Inside(n, call, Cut)
  {
    var calls := [call];
    assert Flatten(calls[1..]) == [];
    assert Flatten(calls) == call;
    forall i | 0 <= i < |calls|
      ensures exists e: End :: RunsList(n.body, calls[i], e)
    {
      assert RunsList(n.body, calls[i], end);
    }
    assert Calls(n, calls);
  }

  lemma {:induction false} OpenInTryReached(n: Node, m: Node) returns (rest: seq<Node>)
    requires n.Try? && Open(n, m) && m != n
    ensures Inside(n, rest, Cut) && m in rest
    decreases n, 0
  {
    var core := CoreEnds(EndsOf(n.body), EndsOfHandlers(n.handlers), EndsOf(n.orelse));
    if core != {} && OpenIn(n.final, m) {
      var e :| e in core;
      var before := CoreEndReached(n, e);
      var last := OpenInReached(n.final, m);
      assert LastRun(n, e, last, Cut);
      rest := before + last;
    } else {
      rest := OpenInCoreReached(n, m);
      assert LastRun(n, Cut, [], Cut) && rest == rest + [];
    }
  }

  lemma {:induction false} OpenInCoreReached(n: Node, m: Node) returns (core: seq<Node>)
    requires n.Try?
    requires
      || OpenIn(n.body, m)
      || (Raises in EndsOf(n.body) && exists i :: 0 <= i < |n.handlers| && OpenInHandler(n.handlers[i], m))
      || (Falls in EndsOf(n.body) && OpenIn(n.orelse, m))
    ensures CoreRun(n, core, Cut) && m in core
    decreases n, -1
  {
    var first, tail := [], [];
    var be := Cut;
    if OpenIn(n.body, m) {
      first := OpenInReached(n.body, m);
    } else if Falls in EndsOf(n.body) && OpenIn(n.orelse, m) {
      be := Falls;
      first := ListEndReached(n.body, Falls);
      tail := OpenInReached(n.orelse, m);
    } else {
      var i :| 0 <= i < |n.handlers| && OpenInHandler(n.handlers[i], m);
      be := Raises;
      first := ListEndReached(n.body, Raises);
      tail := OpenInReached(n.handlers[i].body, m);
      assert RunsHandler(n.handlers[i], tail, Cut);
    }
    core := first + tail;
    assert core[..|first|] == first && core[|first|..] == tail;
  }

  lemma {:induction false} OpenInReached(ns: seq<Node>, m: Node) returns (trace: seq<Node>)
    requires OpenIn(ns, m)
    ensures RunsList(ns, trace, Cut) && m in trace
    decreases ns
  {
    var k :| 0 <= k < |ns| && AllFall(ns, k) && Open(ns[k], m);
    var first, tail := [ns[0]], [];
    if k > 0 {
      var rest := EndReached(ns[0], Falls);
      first := first + rest;
      assert first[1..] == rest;
      assert OpenIn(ns[1..], m) by {
        assert ns[1..][k - 1] == ns[k] && AllFall(ns[1..], k - 1);
      }
      tail := OpenInReached(ns[1..], m);
    } else if m != ns[0] {
      var rest := OpenReached(ns[0], m);
      first := first + rest;
      assert first[1..] == rest;
    }
    PutFirst(ns, first, tail, if k > 0 then Falls else Cut, Cut);
    trace := first + tail;
  }

  // ---- what the walk yields ------------------------------------------------------------

  ghost predicate Executable(n: Node, m: Node) {
    exists trace: seq<Node>, end: End :: Executes(n, trace, end) && m in trace
  }

  /** A statement is executed by some run exactly when its place is open. */
  lemma ExecutableIffOpen(n: Node, m: Node)
    ensures Executable(n, m) <==> Open(n, m)
  {
    if Executable(n, m) {
      var trace: seq<Node>, end: End :| Executes(n, trace, end) && m in trace;
      if m != n {
        assert m in trace[1..];
        InsideIsOpen(n, trace[1..], end, m);
      }
    }
    if Open(n, m) {
      var trace := [n];
      if m != n {
        var rest := OpenReached(n, m);
        trace := trace + rest;
        assert trace[1..] == rest;
      }
      assert Executes(n, trace, Cut);
    }
  }

  lemma {:induction false} WalkedInList(ns: seq<Node>, k: nat, m: Node)
    requires k < |ns| && m in WalkReachable(ns[k])
    ensures m in WalkAll(ns)
  {
    if k > 0 {
      WalkedInList(ns[1..], k - 1, m);
    }
  }

  lemma {:induction false} WalkedInHandlers(hs: seq<Handler>, i: nat, m: Node)
    requires i < |hs| && m in WalkHandler(hs[i])
    ensures m in WalkHandlers(hs)
  {
    if i > 0 {
      WalkedInHandlers(hs[1..], i - 1, m);
    }
  }

  lemma {:induction false} OpenIsWalked(n: Node, m: Node)
    requires Open(n, m)
    ensures m in WalkReachable(n)
    decreases n, 1
  {
    if m != n {
      match n
      case If(test, body, orelse) =>
        OpenInIsWalked(if test != Literal(false) && OpenIn(body, m) then body else orelse, m);
      case While(test, body, orelse) =>
        OpenInIsWalked(if test != Literal(false) && OpenIn(body, m) then body else orelse, m);
      case With(body) => OpenInIsWalked(body, m);
      case Try(body, handlers, orelse, final) =>
        if OpenIn(body, m) {
          OpenInIsWalked(body, m);
        } else if OpenIn(orelse, m) {
          OpenInIsWalked(orelse, m);
        } else if OpenIn(final, m) {
          OpenInIsWalked(final, m);
        } else {
          var i :| 0 <= i < |handlers| && OpenInHandler(handlers[i], m);
          OpenInIsWalked(handlers[i].body, m);
          WalkedInHandlers(handlers, i, m);
        }
      case Function(body) => OpenInIsWalked(body, m);
      case Body(body) => OpenInIsWalked(body, m);
      case _ =>
    }
  }

  lemma {:induction false} OpenInIsWalked(ns: seq<Node>, m: Node)
    requires OpenIn(ns, m)
    ensures m in WalkAll(ns)
    decreases ns
  {
    var k :| 0 <= k < |ns| && AllFall(ns, k) && Open(ns[k], m);
    OpenIsWalked(ns[k], m);
    WalkedInList(ns, k, m);
  }

  /** The walk misses nothing: whatever some run executes is yielded. */
  lemma ExecutedIsWalked(n: Node, trace: seq<Node>, end: End, m: Node)
    requires Executes(n, trace, end) && m in trace
    ensures m in WalkReachable(n)
  {
    ExecutableIffOpen(n, m);
    OpenIsWalked(n, m);
  }

  // ---- dead statements -----------------------------------------------------------------

  /** No statement always diverts control from a statement that stands after it. */
  predicate NothingDead(n: Node)
    decreases n
  {
    match n
    case If(_, body, orelse) => NothingDeadIn(body) && NothingDeadIn(orelse)
    case While(_, body, orelse) => NothingDeadIn(body) && NothingDeadIn(orelse)
    case With(body) => NothingDeadIn(body)
    case Try(body, handlers, orelse, final) =>
      && NothingDeadIn(body) && NothingDeadIn(orelse) && NothingDeadIn(final)
      && (forall i :: 0 <= i < |handlers| ==> NothingDeadInHandler(handlers[i]))
      && (handlers == [] || Raises in EndsOf(body))
      && (orelse == [] || Falls in EndsOf(body))
      && (final == [] || CoreEnds(EndsOf(body), EndsOfHandlers(handlers), EndsOf(orelse)) != {})
    case Function(body) => NothingDeadIn(body)
    case Body(body) => NothingDeadIn(body)
    case _ => true
  }

  predicate NothingDeadIn(ns: seq<Node>)
    decreases ns
  {
    AllFall(ns, if |ns| == 0 then 0 else |ns| - 1) && forall i :: 0 <= i < |ns| ==> NothingDead(ns[i])
  }

  predicate NothingDeadInHandler(h: Handler)
    decreases h
  {
    NothingDeadIn(h.body)
  }

  lemma {:induction false} WalkedIsOpen(n: Node, m: Node)
    requires NothingDead(n) && m in WalkReachable(n)
    ensures Open(n, m)
    decreases n, 1
  {
    if m != n {
      match n
      case If(test, body, orelse) =>
        WalkedInIsOpen(if test != Literal(false) && m in WalkAll(body) then body else orelse, m);
      case While(test, body, orelse) =>
        WalkedInIsOpen(if test != Literal(false) && m in WalkAll(body) then body else orelse, m);
      case With(body) => WalkedInIsOpen(body, m);
      case Try(body, handlers, orelse, final) =>
        if m in WalkAll(body) {
          WalkedInIsOpen(body, m);
        } else if m in WalkAll(orelse) {
          WalkedInIsOpen(orelse, m);
        } else if m in WalkAll(final) {
          WalkedInIsOpen(final, m);
        } else {
          var i := WalkedHandler(handlers, m);
          assert NothingDeadInHandler(handlers[i]);
          WalkedInIsOpen(handlers[i].body, m);
          assert OpenInHandler(handlers[i], m);
        }
      case Function(body) => WalkedInIsOpen(body, m);
      case Body(body) => WalkedInIsOpen(body, m);
      case _ =>
    }
  }

  lemma {:induction false} WalkedHandler(hs: seq<Handler>, m: Node) returns (i: nat)
    requires m in WalkHandlers(hs)
    ensures i < |hs| && m in WalkHandler(hs[i])
  {
    if m in WalkHandler(hs[0]) {
      i := 0;
    } else {
      i := WalkedHandler(hs[1..], m);
      i := i + 1;
    }
  }

  lemma {:induction false} WalkedInIsOpen(ns: seq<Node>, m: Node)
    requires NothingDeadIn(ns) && m in WalkAll(ns)
    ensures |ns| > 0 && OpenIn(ns, m)
    decreases ns
  {
    if m in WalkReachable(ns[0]) {
      WalkedIsOpen(ns[0], m);
      OpenFirst(ns, m);
    } else {
      assert NothingDeadIn(ns[1..]) by {
        assert forall i :: 0 <= i < |ns[1..]| ==> ns[1..][i] == ns[i + 1];
      }
      WalkedInIsOpen(ns[1..], m);
      OpenLater(ns, m);
    }
  }

  // ---- what an import statement imports ------------------------------------------------

  /** `name` is the dotted name `module` or one of its parents: importing the one imports the other. */
  predicate Covers(whole: string, name: string) {
    name == whole || name + "." <= whole
  }

  function LastDot(s: string): (n: nat)
    ensures n <= |s|
  {
    if s == "" then 0 else if s[|s| - 1] == '.' then |s| else LastDot(s[..|s| - 1])
  }

  /** The package without its last `k` parts, if it has more than that many. */
  function Above(package: string, k: nat): Option<string>
    decreases k
  {
    if k == 0 then Some(package)
    else if LastDot(package) == 0 then None
    else Above(package[..LastDot(package) - 1], k - 1)
  }

  lemma {:induction false} LastDotIs(base: string, last: string)
    requires '.' !in last
    ensures LastDot(base + "." + last) == |base| + 1
  {
    var s := base + "." + last;
    if last == "" {
      assert s[|s| - 1] == '.';
    } else {
      assert s[..|s| - 1] == base + "." + last[..|last| - 1];
      assert s[|s| - 1] == last[|last| - 1] && last[|last| - 1] in last;
      LastDotIs(base, last[..|last| - 1]);
    }
  }

  lemma {:induction false} NoDot(s: string)
    requires '.' !in s
    ensures LastDot(s) == 0
  {
    if s != "" {
      assert s[|s| - 1] in s;
      NoDot(s[..|s| - 1]);
    }
  }

  /** Each step up takes off the last part of a package; a package of one part has nothing above it. */
  lemma AboveIs(base: string, last: string, k: nat)
    requires '.' !in last
    ensures Above(base + "." + last, k + 1) == Above(base, k)
    ensures Above(last, k + 1) == None && Above(last, 0) == Some(last)
  {
    LastDotIs(base, last);
    NoDot(last);
    assert (base + "." + last)[..|base|] == base;
  }

  /**
   Where the file stands: its package, empty for a script, and which dotted names
   are modules that a `from` statement loads for a name it lists.
   */
  datatype Home = Home(package: string, loads: string -> bool)

  /** The module a `from` statement asks for; a relative one outside a package, or above its top, raises. */
  function Target(n: Node, home: Home): Option<string>
    requires n.ImportFrom?
  {
    if n.level == 0 then n.source
    else if home.package == "" then None
    else
      match Above(home.package, n.level - 1)
      case None => None
      case Some(base) => Some(if n.source.Some? then base + "." + n.source.value else base)
  }

  /** It imports the module by the module's own absolute name. */
  predicate Direct(n: Node, name: string) {
    (n.Import? && name in n.names) || (n.ImportFrom? && n.level == 0 && n.source == Some(name))
  }

  predicate Lists(names: seq<string>, whole: string, name: string) {
    exists i :: 0 <= i < |names| && name == whole + "." + names[i]
  }

  /** Executing the statement imports the module: the module named, its parents, and the submodules listed. */
  predicate Performs(n: Node, home: Home, name: string) {
    match n
    case Import(names) => exists i :: 0 <= i < |names| && Covers(names[i], name)
    case ImportFrom(_, names, _) =>
      (match Target(n, home)
       case None => false
       case Some(whole) => Covers(whole, name) || (home.loads(name) && Lists(names, whole, name)))
    case _ => false
  }

  /** A relative import whose last part reads like the module. */
  predicate Lookalike(n: Node, name: string) {
    n.ImportFrom? && n.level > 0 && n.source == Some(name)
  }

  /** The gate's test holds of an absolute import by name, which is an import, and of its relative lookalike. */
  lemma TestMeans(n: Node, home: Home, name: string)
    ensures NamesModule(n, name) <==> Direct(n, name) || Lookalike(n, name)
    ensures Direct(n, name) ==> Performs(n, home, name)
  {
    if n.Import? && name in n.names {
      var i :| 0 <= i < |n.names| && n.names[i] == name;
      assert Covers(n.names[i], name);
    }
  }

  // ---- imports -------------------------------------------------------------------------

  /** Some run executes a statement that imports the module. */
  ghost predicate Imported(tree: Node, home: Home, name: string) {
    exists n :: Executable(tree, n) && Performs(n, home, name)
  }

  ghost predicate Found(tree: Node, name: string) {
    exists n :: n in WalkReachable(tree) && NamesModule(n, name)
  }

  /** A statement the gate counts although it is dead, or is a relative import. */
  predicate CountsWrongly(tree: Node, n: Node, name: string) {
    NamesModule(n, name) && (!Open(tree, n) || Lookalike(n, name))
  }

  lemma ImportedIffOpen(tree: Node, home: Home, name: string)
    ensures Imported(tree, home, name) <==> exists n :: Open(tree, n) && Performs(n, home, name)
  {
    forall n
      ensures Executable(tree, n) <==> Open(tree, n)
    {
      ExecutableIffOpen(tree, n);
    }
  }

  /** An absolute import by name that some run executes is never missed. */
  lemma DirectIsFound(tree: Node, n: Node, name: string)
    requires Executable(tree, n) && Direct(n, name)
    ensures Found(tree, name)
  {
    ExecutableIffOpen(tree, n);
    OpenIsWalked(tree, n);
    assert NamesModule(n, name);
  }

  /**
   A module that some run imports is missed exactly when no statement that
   imports it and can be executed names it itself, as one that names a submodule
   does not, and nothing the gate counts wrongly makes up for it.
   */
  lemma MissedIff(tree: Node, home: Home, name: string)
    requires Imported(tree, home, name)
    ensures !Found(tree, name)
       <==> && (forall n :: Open(tree, n) && Performs(n, home, name) ==> !Direct(n, name))
            && (forall n :: n in WalkReachable(tree) ==> !CountsWrongly(tree, n, name))
  {
    forall n | Open(tree, n) && Direct(n, name)
      ensures Found(tree, name) && Performs(n, home, name)
    {
      TestMeans(n, home, name);
      OpenIsWalked(tree, n);
    }
    if Found(tree, name) {
      var n :| n in WalkReachable(tree) && NamesModule(n, name);
      TestMeans(n, home, name);
      assert CountsWrongly(tree, n, name) || (Open(tree, n) && Performs(n, home, name) && Direct(n, name));
    }
  }

  /**
   A module that the gate finds is imported by no run exactly when everything it
   counts for it is dead or relative, and no statement that can be executed
   imports it in another way.
   */
  lemma FalseAlarmIff(tree: Node, home: Home, name: string)
    requires Found(tree, name)
    ensures !Imported(tree, home, name)
       <==> && (forall n :: n in WalkReachable(tree) && NamesModule(n, name) ==> CountsWrongly(tree, n, name))
            && (forall n :: Open(tree, n) && Performs(n, home, name) ==> Direct(n, name))
  {
    ImportedIffOpen(tree, home, name);
    forall n | n in WalkReachable(tree) && NamesModule(n, name) && !CountsWrongly(tree, n, name)
      ensures Imported(tree, home, name)
    {
      TestMeans(n, home, name);
    }
    if n :| Open(tree, n) && Performs(n, home, name) && Direct(n, name) {
      TestMeans(n, home, name);
      OpenIsWalked(tree, n);
      assert NamesModule(n, name);
      assert !CountsWrongly(tree, n, name) by {
        assert !Lookalike(n, name);
      }
    }
  }

  lemma LiveStatement(tree: Node, n: Node)
    requires NothingDead(tree)
    ensures Open(tree, n) <==> n in WalkReachable(tree)
  {
    if n in WalkReachable(tree) {
      WalkedIsOpen(tree, n);
    }
    if Open(tree, n) {
      OpenIsWalked(tree, n);
    }
  }

  /** The same in a tree with no dead statement, where only relative imports are counted wrongly. */
  lemma LiveTree(tree: Node, home: Home, name: string)
    requires NothingDead(tree)
    ensures Imported(tree, home, name) && !Found(tree, name)
       <==> && Imported(tree, home, name)
            && (forall n :: n in WalkReachable(tree) && Performs(n, home, name) ==> !Direct(n, name))
            && (forall n :: n in WalkReachable(tree) ==> !Lookalike(n, name))
    ensures Found(tree, name) && !Imported(tree, home, name)
       <==> && Found(tree, name)
            && (forall n :: n in WalkReachable(tree) && NamesModule(n, name) ==> Lookalike(n, name))
            && (forall n :: n in WalkReachable(tree) && Performs(n, home, name) ==> Direct(n, name))
  {
    forall n
      ensures Open(tree, n) <==> n in WalkReachable(tree)
    {
      LiveStatement(tree, n);
    }
    if Imported(tree, home, name) {
      MissedIff(tree, home, name);
      forall n | Lookalike(n, name)
        ensures NamesModule(n, name)
      {
      }
    }
    if Found(tree, name) {
      FalseAlarmIff(tree, home, name);
    }
  }

  // ---- where the gate is wrong ------------------------------------------------------------

  lemma OneStatement(n: Node, m: Node)
    requires n.Import? || n.ImportFrom?
    ensures NothingDead(Body([n]))
    ensures Open(Body([n]), m) <==> m == Body([n]) || m == n
    ensures m in WalkReachable(Body([n])) <==> m == Body([n]) || m == n
  {
    var ns := [n];
    assert ns[1..] == [] && WalkReachable(n) == [n] && WalkAll(ns) == [n];
    assert AllFall(ns, 0) && NothingDead(n);
    assert Open(ns[0], m) <==> m == n;
    if m == n {
      OpenFirst(ns, m);
    }
    if OpenIn(ns, m) {
      var k :| 0 <= k < |ns| && Open(ns[k], m);
    }
    assert Open(Body(ns), m) <==> m == Body(ns) || OpenIn(ns, m);
  }

  /** `from .name import x` counts as an import of `name`, and imports a module of the file's own package, if any. */
  lemma RelativeImportCounts(name: string, x: string, home: Home)
    requires '.' !in name && !Covers(home.package, name)
    ensures var tree := Body([ImportFrom(Some(name), [x], 1)]);
      NothingDead(tree) && Found(tree, name) && !Imported(tree, home, name)
  {
    var n := ImportFrom(Some(name), [x], 1);
    OneStatement(n, n);
    assert NamesModule(n, name);
    OtherModule(n, x, home, name);
    forall m | Executable(Body([n]), m)
      ensures !Performs(m, home, name)
    {
      OneStatement(n, m);
      ExecutableIffOpen(Body([n]), m);
    }
  }

  lemma StemOfWhole(package: string, name: string)
    requires name + "." <= package + "." + name
    ensures name + "." <= package || name == package || '.' in name
  {
    var whole, stem := package + "." + name, name + ".";
    assert stem == whole[..|stem|];
    if |name| < |package| {
      assert whole[..|stem|] == package[..|stem|];
    } else if |name| == |package| {
      assert name == stem[..|name|] == whole[..|name|] == package;
    } else {
      assert name[|package|] == stem[|package|] == whole[|package|] == '.';
    }
  }

  lemma OtherModule(n: Node, x: string, home: Home, name: string)
    requires n == ImportFrom(Some(name), [x], 1) && '.' !in name && !Covers(home.package, name)
    ensures !Performs(n, home, name)
  {
    if home.package != "" {
      var whole := home.package + "." + name;
      assert Target(n, home) == Some(whole);
      if name + "." <= whole {
        StemOfWhole(home.package, name);
      }
      assert forall i :: 0 <= i < |n.names| ==> |whole + "." + n.names[i]| > |name|;
    }
  }

  /** `import name.sub` imports `name` first, and is not counted. */
  lemma SubmoduleImportMissed(name: string, sub: string, home: Home)
    ensures var tree := Body([Import([name + "." + sub])]);
      Imported(tree, home, name) && !Found(tree, name)
  {
    var n := Import([name + "." + sub]);
    OneStatement(n, n);
    ExecutableIffOpen(Body([n]), n);
    assert Covers(n.names[0], name);
    assert n.names[0] != name;
    forall m | m in WalkReachable(Body([n]))
      ensures !NamesModule(m, name)
    {
      OneStatement(n, m);
    }
  }

  /** An import that stands after a `raise` is counted, and no run performs it. */
  lemma RaiseHidesImport(name: string, home: Home)
    ensures var tree := Body([Raise, Import([name])]); Found(tree, name) && !Imported(tree, home, name)
  {
    var ns := [Raise, Import([name])];
    var tree := Body(ns);
    assert ns[1] in WalkReachable(tree) && NamesModule(ns[1], name) by {
      assert WalkReachable(ns[1]) == [ns[1]];
      WalkedInList(ns, 1, ns[1]);
    }
    forall n | Executable(tree, n)
      ensures !Performs(n, home, name)
    {
      ExecutableIffOpen(tree, n);
      if n != tree {
        var k :| 0 <= k < |ns| && AllFall(ns, k) && Open(ns[k], n);
        assert k > 0 ==> Falls in Ends(ns[0]);
        assert n == Raise;
      }
    }
  }
}
