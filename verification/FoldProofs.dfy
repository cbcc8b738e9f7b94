/**
 When the folder is right.  Expressions are evaluated in stores that result from
 executing the program's assignments in any order, any number of times; whatever
 the folder declines may evaluate to anything.
 */
module FoldProofs {
  import opened Fold
  import opened Formats
  import opened Outcomes

  // ---- evaluation -----------------------------------------------------------------

  datatype Val = Text(s: string) | Other(id: nat)

  type Store = map<string, Val>

  /** The characters of a string as one-character strings, which is what iterating it yields. */
  function Chars(s: string): seq<string> {
    if |s| == 0 then [] else [[s[0]]] + Chars(s[1..])
  }

  predicate AllText(vs: seq<Val>) {
    forall i :: 0 <= i < |vs| ==> vs[i].Text?
  }

  function Texts(vs: seq<Val>): seq<string>
    requires AllText(vs)
  {
    if |vs| == 0 then [] else [vs[0].s] + Texts(vs[1..])
  }

  /** Two strings add to their concatenation; any other operands to anything. */
  predicate AddGives(a: Val, b: Val, v: Val) {
    a.Text? && b.Text? ==> v == Text(a.s + b.s)
  }

  /** A join over a display joins its strings; a join over one string joins its characters. */
  predicate JoinGives(q: Val, display: bool, vs: seq<Val>, v: Val) {
    q.Text? && AllText(vs) && (display || |vs| == 1) ==>
      v == Text(JoinWith(q.s, if display then Texts(vs) else Chars(vs[0].s)))
  }

  predicate PathGives(vs: seq<Val>, v: Val) {
    AllText(vs) && |vs| > 0 ==> v == Text(PathJoined(vs[0].s, Texts(vs[1..])))
  }

  /** `e` may evaluate to `v`; an unbound name evaluates to nothing. */
  ghost predicate Evaluates(e: Expr, store: Store, v: Val)
    decreases e
  {
    match e
    case Const(s) => v == Text(s)
    case Opaque => true
    case Name(id) => id in store && store[id] == v
    case Add(left, right) =>
      exists a: Val, b: Val :: Evaluates(left, store, a) && Evaluates(right, store, b) && AddGives(a, b, v)
    case FString(pieces) =>
      exists parts: seq<string> :: EvaluatesPieces(pieces, store, parts) && v == Text(Concat(parts))
    case SepJoin(sep, display, elements) =>
      exists q: Val, vs: seq<Val> :: Evaluates(sep, store, q) && EvaluatesAll(elements, store, vs)
          && JoinGives(q, display, vs, v)
    case PathJoin(args) =>
      exists vs: seq<Val> :: EvaluatesAll(args, store, vs) && PathGives(vs, v)
  }

  ghost predicate EvaluatesAll(es: seq<Expr>, store: Store, vs: seq<Val>)
    decreases es
  {
    if |es| == 0 then vs == []
    else |vs| == |es| && Evaluates(es[0], store, vs[0]) && EvaluatesAll(es[1..], store, vs[1..])
  }

  /** A string is converted and formatted; any other value formats to some string. */
  ghost predicate EvaluatesPiece(piece: Piece, store: Store, part: string)
    decreases piece
  {
    exists v: Val :: Evaluates(piece.e, store, v) && (v.Text? ==> part == Formatted(piece.conversion, piece.spec, v.s))
  }

  ghost predicate EvaluatesPieces(pieces: seq<Piece>, store: Store, parts: seq<string>)
    decreases pieces
  {
    if |pieces| == 0 then parts == []
    else
      && |parts| == |pieces|
      && EvaluatesPiece(pieces[0], store, parts[0])
      && EvaluatesPieces(pieces[1..], store, parts[1..])
  }

  /** The forms whose folding follows Python: fields that leave every string alone, and joins of displays. */
  predicate Faithful(e: Expr)
    decreases e
  {
    match e
    case Add(left, right) => Faithful(left) && Faithful(right)
    case FString(pieces) => forall i :: 0 <= i < |pieces| ==> FaithfulPiece(pieces[i])
    case SepJoin(sep, display, elements) =>
      display && Faithful(sep) && forall i :: 0 <= i < |elements| ==> Faithful(elements[i])
    case PathJoin(args) => forall i :: 0 <= i < |args| ==> Faithful(args[i])
    case _ => true
  }

  predicate FaithfulPiece(piece: Piece)
    decreases piece
  {
    Transparent(piece.conversion, piece.spec) && Faithful(piece.e)
  }

  // ---- one expression ----------------------------------------------------------------

  /** Every bound name with a single-valued bucket holds that value. */
  predicate Agrees(store: Store, env: Env) {
    forall x :: x in store && x in env && |env[x]| == 1 ==> store[x] == Text(env[x][0])
  }

  lemma {:induction false} FoldSound(e: Expr, env: Env, depth: nat, store: Store, v: Val)
    requires Agrees(store, env) && Faithful(e)
    requires FoldExpr(e, env, depth).Some? && Evaluates(e, store, v)
    ensures v == Text(FoldExpr(e, env, depth).value)
    decreases e
  {
    match e
    case Add(left, right) =>
      var a: Val, b: Val :| Evaluates(left, store, a) && Evaluates(right, store, b) && AddGives(a, b, v);
      FoldSound(left, env, depth + 1, store, a);
      FoldSound(right, env, depth + 1, store, b);
    case FString(pieces) =>
      var parts: seq<string> :| EvaluatesPieces(pieces, store, parts) && v == Text(Concat(parts));
      FoldPiecesSound(pieces, env, depth + 1, store, parts);
    case SepJoin(sep, display, elements) =>
      var q: Val, vs: seq<Val> :| Evaluates(sep, store, q) && EvaluatesAll(elements, store, vs)
          && JoinGives(q, display, vs, v);
      FoldSound(sep, env, depth + 1, store, q);
      FoldAllSound(elements, env, depth + 1, store, vs);
    case PathJoin(args) =>
      var vs: seq<Val> :| EvaluatesAll(args, store, vs) && PathGives(vs, v);
      FoldAllSound(args, env, depth + 1, store, vs);
      FirstText(vs);
    case _ =>
  }

  lemma FirstText(vs: seq<Val>)
    requires AllText(vs) && |vs| > 0
    ensures Texts(vs)[0] == vs[0].s && Texts(vs)[1..] == Texts(vs[1..])
  {
  }

  lemma {:induction false} FoldAllSound(es: seq<Expr>, env: Env, depth: nat, store: Store, vs: seq<Val>)
    requires Agrees(store, env) && forall i :: 0 <= i < |es| ==> Faithful(es[i])
    requires FoldAll(es, env, depth).Some? && EvaluatesAll(es, store, vs)
    ensures |vs| == |es| && AllText(vs) && Texts(vs) == FoldAll(es, env, depth).value
    decreases es
  {
    if |es| > 0 {
      FoldSound(es[0], env, depth, store, vs[0]);
      FoldAllSound(es[1..], env, depth, store, vs[1..]);
      assert forall i :: 0 < i < |vs| ==> vs[i] == vs[1..][i - 1];
    }
  }

  lemma {:induction false} FoldPieceSound(piece: Piece, env: Env, depth: nat, store: Store, part: string)
    requires Agrees(store, env) && FaithfulPiece(piece)
    requires FoldPiece(piece, env, depth).Some? && EvaluatesPiece(piece, store, part)
    ensures part == FoldPiece(piece, env, depth).value
    decreases piece
  {
    var v: Val :| Evaluates(piece.e, store, v) && (v.Text? ==> part == Formatted(piece.conversion, piece.spec, v.s));
    FoldSound(piece.e, env, depth, store, v);
  }

  lemma {:induction false} FoldPiecesSound(pieces: seq<Piece>, env: Env, depth: nat, store: Store, parts: seq<string>)
    requires Agrees(store, env) && forall i :: 0 <= i < |pieces| ==> FaithfulPiece(pieces[i])
    requires FoldPieces(pieces, env, depth).Some? && EvaluatesPieces(pieces, store, parts)
    ensures parts == FoldPieces(pieces, env, depth).value
    decreases pieces
  {
    if |pieces| > 0 {
      FoldPieceSound(pieces[0], env, depth, store, parts[0]);
      FoldPiecesSound(pieces[1..], env, depth, store, parts[1..]);
      assert parts == [parts[0]] + parts[1..];
    }
  }

  /** Every collected name is bound, and to its value when its bucket holds only one. */
  predicate Realises(store: Store, env: Env) {
    forall x :: x in env ==> x in store && (|env[x]| == 1 ==> store[x] == Text(env[x][0]))
  }

  lemma JoinReached(e: Expr, q: string, parts: seq<string>, store: Store)
    requires e.SepJoin? && e.display
    requires Evaluates(e.sep, store, Text(q)) && EvaluatesAll(e.elements, store, Wrapped(parts))
    ensures Evaluates(e, store, Text(JoinWith(q, parts)))
  {
    WrappedTexts(parts);
    assert JoinGives(Text(q), true, Wrapped(parts), Text(JoinWith(q, parts)));
  }

  lemma PathReached(e: Expr, parts: seq<string>, store: Store)
    requires e.PathJoin? && |parts| > 0 && EvaluatesAll(e.args, store, Wrapped(parts))
    ensures Evaluates(e, store, Text(PathJoined(parts[0], parts[1..])))
  {
    WrappedTexts(parts);
    FirstText(Wrapped(parts));
    assert PathGives(Wrapped(parts), Text(PathJoined(parts[0], parts[1..])));
  }

  /** In such a store the folded string really is a value of the expression. */
  lemma {:induction false} FoldReached(e: Expr, env: Env, depth: nat, store: Store)
    requires Realises(store, env) && Faithful(e) && FoldExpr(e, env, depth).Some?
    ensures Evaluates(e, store, Text(FoldExpr(e, env, depth).value))
    decreases e
  {
    match e
    case Add(left, right) =>
      FoldReached(left, env, depth + 1, store);
      FoldReached(right, env, depth + 1, store);
      var a, b := Text(FoldExpr(left, env, depth + 1).value), Text(FoldExpr(right, env, depth + 1).value);
      assert Evaluates(left, store, a) && Evaluates(right, store, b);
    case FString(pieces) => FoldPiecesReached(pieces, env, depth + 1, store);
    case SepJoin(sep, _, elements) =>
      FoldReached(sep, env, depth + 1, store);
      FoldAllReached(elements, env, depth + 1, store);
      JoinReached(e, FoldExpr(sep, env, depth + 1).value, FoldAll(elements, env, depth + 1).value, store);
    case PathJoin(args) =>
      FoldAllReached(args, env, depth + 1, store);
      PathReached(e, FoldAll(args, env, depth + 1).value, store);
    case _ =>
  }

  function Wrapped(parts: seq<string>): (r: seq<Val>)
    ensures |r| == |parts|
  {
    if |parts| == 0 then [] else [Text(parts[0])] + Wrapped(parts[1..])
  }

  lemma {:induction false} WrappedTexts(parts: seq<string>)
    ensures AllText(Wrapped(parts)) && Texts(Wrapped(parts)) == parts
    ensures |parts| > 0 ==> Wrapped(parts)[0] == Text(parts[0])
  {
    if |parts| > 0 {
      WrappedTexts(parts[1..]);
      var w := Wrapped(parts);
      assert w[1..] == Wrapped(parts[1..]);
      assert forall i :: 0 < i < |w| ==> w[i] == w[1..][i - 1];
      assert parts == [parts[0]] + parts[1..];
    }
  }

  lemma {:induction false} FoldAllReached(es: seq<Expr>, env: Env, depth: nat, store: Store)
    requires Realises(store, env) && forall i :: 0 <= i < |es| ==> Faithful(es[i])
    requires FoldAll(es, env, depth).Some?
    ensures EvaluatesAll(es, store, Wrapped(FoldAll(es, env, depth).value))
    decreases es
  {
    if |es| > 0 {
      FoldReached(es[0], env, depth, store);
      FoldAllReached(es[1..], env, depth, store);
      var all, rest := FoldAll(es, env, depth).value, FoldAll(es[1..], env, depth).value;
      assert all[1..] == rest;
      assert Wrapped(all)[1..] == Wrapped(rest);
    }
  }

  lemma {:induction false} FoldPieceReached(piece: Piece, env: Env, depth: nat, store: Store)
    requires Realises(store, env) && FaithfulPiece(piece) && FoldPiece(piece, env, depth).Some?
    ensures EvaluatesPiece(piece, store, FoldPiece(piece, env, depth).value)
    decreases piece
  {
    FoldReached(piece.e, env, depth, store);
  }

  lemma {:induction false} FoldPiecesReached(pieces: seq<Piece>, env: Env, depth: nat, store: Store)
    requires Realises(store, env) && forall i :: 0 <= i < |pieces| ==> FaithfulPiece(pieces[i])
    requires FoldPieces(pieces, env, depth).Some?
    ensures EvaluatesPieces(pieces, store, FoldPieces(pieces, env, depth).value)
    decreases pieces
  {
    if |pieces| > 0 {
      FoldPieceReached(pieces[0], env, depth, store);
      FoldPiecesReached(pieces[1..], env, depth, store);
      var all := FoldPieces(pieces, env, depth).value;
      assert all[1..] == FoldPieces(pieces[1..], env, depth).value;
    }
  }

  // ---- executions -----------------------------------------------------------------------

  /** Executing the i-th assignment with the value its right-hand side evaluated to. */
  datatype Event = Event(i: nat, v: Val)

  function Assigned(store: Store, targets: seq<string>, v: Val): Store {
    if |targets| == 0 then store else Assigned(store, targets[..|targets| - 1], v)[targets[|targets| - 1] := v]
  }

  function StoreAfter(assigns: seq<Assign>, run: seq<Event>): Store {
    if |run| == 0 then map[]
    else
      var last := run[|run| - 1];
      var before := StoreAfter(assigns, run[..|run| - 1]);
      if last.i < |assigns| then Assigned(before, assigns[last.i].targets, last.v) else before
  }

  /** A run of the program: any assignments in any order, each with a value it can evaluate to. */
  ghost predicate Valid(assigns: seq<Assign>, run: seq<Event>) {
    |run| == 0 ||
    var last := run[|run| - 1];
    && Valid(assigns, run[..|run| - 1]) && last.i < |assigns|
    && Evaluates(assigns[last.i].value, StoreAfter(assigns, run[..|run| - 1]), last.v)
  }

  /** Whatever the folder decides about a faithful expression is what it evaluates to in every run. */
  ghost predicate Sound(assigns: seq<Assign>, env: Env) {
    forall run: seq<Event>, e: Expr, v: Val ::
      Valid(assigns, run) && Faithful(e) && FoldExpr(e, env, 0).Some? && Evaluates(e, StoreAfter(assigns, run), v)
      ==> v == Text(FoldExpr(e, env, 0).value)
  }

  /** Each assignment to a name with one collected value folds, in the final environment, to that value. */
  predicate Settled(assigns: seq<Assign>, env: Env) {
    forall i, k :: 0 <= i < |assigns| && 0 <= k < |assigns[i].targets| && assigns[i].targets[k] in env
      && |env[assigns[i].targets[k]]| == 1
      ==> FoldExpr(assigns[i].value, env, 0) == Some(env[assigns[i].targets[k]][0])
  }

  predicate AllFaithful(assigns: seq<Assign>) {
    forall i :: 0 <= i < |assigns| ==> Faithful(assigns[i].value)
  }

  predicate AllFold(assigns: seq<Assign>, env: Env) {
    forall i :: 0 <= i < |assigns| ==> FoldExpr(assigns[i].value, env, 0).Some?
  }

  lemma {:induction false} AssignedElsewhere(store: Store, targets: seq<string>, v: Val, x: string)
    ensures x in targets ==> x in Assigned(store, targets, v) && Assigned(store, targets, v)[x] == v
    ensures x !in targets ==> (x in Assigned(store, targets, v) <==> x in store)
    ensures x !in targets && x in store ==> Assigned(store, targets, v)[x] == store[x]
  {
    if |targets| > 0 {
      AssignedElsewhere(store, targets[..|targets| - 1], v, x);
      assert x in targets <==> x in targets[..|targets| - 1] || x == targets[|targets| - 1];
    }
  }

  lemma {:induction false} RunsAgree(assigns: seq<Assign>, env: Env, run: seq<Event>)
    requires Settled(assigns, env) && AllFaithful(assigns) && Valid(assigns, run)
    ensures Agrees(StoreAfter(assigns, run), env)
  {
    if |run| > 0 {
      var init, last := run[..|run| - 1], run[|run| - 1];
      RunsAgree(assigns, env, init);
      var a, before := assigns[last.i], StoreAfter(assigns, init);
      forall x | x in StoreAfter(assigns, run) && x in env && |env[x]| == 1
        ensures StoreAfter(assigns, run)[x] == Text(env[x][0])
      {
        AssignedElsewhere(before, a.targets, last.v, x);
        if x in a.targets {
          var k :| 0 <= k < |a.targets| && a.targets[k] == x;
          FoldSound(a.value, env, 0, before, last.v);
        }
      }
    }
  }

  /** A settled environment is sound for every run, whatever else the program does. */
  lemma SettledIsSound(assigns: seq<Assign>, env: Env)
    requires Settled(assigns, env) && AllFaithful(assigns)
    ensures Sound(assigns, env)
  {
    forall run: seq<Event>, e: Expr, v: Val |
      Valid(assigns, run) && Faithful(e) && FoldExpr(e, env, 0).Some? && Evaluates(e, StoreAfter(assigns, run), v)
      ensures v == Text(FoldExpr(e, env, 0).value)
    {
      RunsAgree(assigns, env, run);
      FoldSound(e, env, 0, StoreAfter(assigns, run), v);
    }
  }

  // ---- every collected value is reached by some run ------------------------------------------

  /** Some run realises the environment. */
  ghost predicate Reached(assigns: seq<Assign>, env: Env) {
    exists run: seq<Event> :: Valid(assigns, run) && Realises(StoreAfter(assigns, run), env)
  }

  lemma {:induction false} BindAllRealised(store: Store, env: Env, targets: seq<string>, s: string)
    requires Realises(store, env)
    ensures Realises(Assigned(store, targets, Text(s)), BindAll(env, targets, s))
  {
    if |targets| > 0 {
      BindAllRealised(store, env, targets[..|targets| - 1], s);
    }
  }

  lemma VisitReached(assigns: seq<Assign>, env: Env, i: nat)
    requires i < |assigns| && Faithful(assigns[i].value) && Reached(assigns, env)
    ensures Reached(assigns, Visit(env, assigns[i]))
  {
    if FoldExpr(assigns[i].value, env, 0).Some? {
      var run: seq<Event> :| Valid(assigns, run) && Realises(StoreAfter(assigns, run), env);
      var s := FoldExpr(assigns[i].value, env, 0).value;
      FoldReached(assigns[i].value, env, 0, StoreAfter(assigns, run));
      var longer := run + [Event(i, Text(s))];
      assert longer[..|longer| - 1] == run;
      BindAllRealised(StoreAfter(assigns, run), env, assigns[i].targets, s);
      assert Valid(assigns, longer);
    }
  }

  lemma {:induction false} OnePassReached(assigns: seq<Assign>, env: Env, n: nat)
    requires AllFaithful(assigns) && n <= |assigns| && Reached(assigns, env)
    ensures Reached(assigns, OnePass(env, assigns[..n]))
  {
    if n > 0 {
      OnePassReached(assigns, env, n - 1);
      assert assigns[..n][..n - 1] == assigns[..n - 1];
      VisitReached(assigns, OnePass(env, assigns[..n - 1]), n - 1);
    }
  }

  lemma {:induction false} PassesReached(assigns: seq<Assign>, env: Env, n: nat)
    requires AllFaithful(assigns) && Reached(assigns, env)
    ensures Reached(assigns, Passes(env, assigns, n))
    decreases n
  {
    if n > 0 && OnePass(env, assigns) != env {
      OnePassReached(assigns, env, |assigns|);
      assert assigns[..|assigns|] == assigns;
      PassesReached(assigns, OnePass(env, assigns), n - 1);
    }
  }

  lemma EnvReached(assigns: seq<Assign>)
    requires AllFaithful(assigns)
    ensures Reached(assigns, FoldEnv(assigns))
  {
    var none: seq<Event> := [];
    assert Valid(assigns, none) && Realises(StoreAfter(assigns, none), map[]);
    PassesReached(assigns, map[], MAX_PASSES);
  }

  // ---- values that are not decided ------------------------------------------------------------

  /** Every name in the expression has a collected value. */
  predicate Collected(e: Expr, env: Env)
    decreases e
  {
    match e
    case Name(id) => id in env
    case Add(left, right) => Collected(left, env) && Collected(right, env)
    case FString(pieces) => forall i :: 0 <= i < |pieces| ==> CollectedPiece(pieces[i], env)
    case SepJoin(sep, _, elements) =>
      Collected(sep, env) && forall i :: 0 <= i < |elements| ==> Collected(elements[i], env)
    case PathJoin(args) => forall i :: 0 <= i < |args| ==> Collected(args[i], env)
    case _ => true
  }

  predicate CollectedPiece(piece: Piece, env: Env)
    decreases piece
  {
    Collected(piece.e, env)
  }

  /** The expression has an operand, at any depth outside f-strings, that the folder does not look into. */
  predicate Wild(e: Expr)
    decreases e
  {
    match e
    case Opaque => true
    case Add(left, right) => Wild(left) || Wild(right)
    case SepJoin(sep, _, elements) => Wild(sep) || exists i :: 0 <= i < |elements| && Wild(elements[i])
    case PathJoin(args) => exists i :: 0 <= i < |args| && Wild(args[i])
    case _ => false
  }

  lemma {:induction false} WildNeverFolds(e: Expr, env: Env, depth: nat)
    requires Wild(e)
    ensures FoldExpr(e, env, depth).None?
    decreases e
  {
    match e
    case Add(left, right) => WildNeverFolds(if Wild(left) then left else right, env, depth + 1);
    case SepJoin(sep, _, elements) =>
      if Wild(sep) {
        WildNeverFolds(sep, env, depth + 1);
      } else {
        WildListNeverFolds(elements, env, depth + 1);
      }
    case PathJoin(args) => WildListNeverFolds(args, env, depth + 1);
    case _ =>
  }

  lemma {:induction false} WildListNeverFolds(es: seq<Expr>, env: Env, depth: nat)
    requires exists i :: 0 <= i < |es| && Wild(es[i])
    ensures FoldAll(es, env, depth).None?
    decreases es
  {
    var i :| 0 <= i < |es| && Wild(es[i]);
    if i == 0 {
      WildNeverFolds(es[0], env, depth);
    } else {
      assert es[1..][i - 1] == es[i];
      WildListNeverFolds(es[1..], env, depth);
    }
  }

  lemma {:induction false} CollectedEvaluates(e: Expr, env: Env, store: Store) returns (v: Val)
    requires Realises(store, env) && Collected(e, env)
    ensures Evaluates(e, store, v)
    ensures Wild(e) ==> v == Other(0)
    decreases e
  {
    v := Other(0);
    match e
    case Const(s) => v := Text(s);
    case Name(id) => v := store[id];
    case Opaque =>
    case Add(left, right) =>
      var a := CollectedEvaluates(left, env, store);
      var b := CollectedEvaluates(right, env, store);
      v := if a.Text? && b.Text? then Text(a.s + b.s) else Other(0);
      assert Evaluates(left, store, a) && Evaluates(right, store, b) && AddGives(a, b, v);
    case FString(pieces) =>
      var parts := CollectedPieces(pieces, env, store);
      v := Text(Concat(parts));
    case SepJoin(sep, display, elements) =>
      var q := CollectedEvaluates(sep, env, store);
      var vs := CollectedAll(elements, env, store);
      if q.Text? && AllText(vs) && (display || |vs| == 1) {
        v := Text(JoinWith(q.s, if display then Texts(vs) else Chars(vs[0].s)));
      }
      assert Evaluates(sep, store, q) && EvaluatesAll(elements, store, vs) && JoinGives(q, display, vs, v);
    case PathJoin(args) =>
      var vs := CollectedAll(args, env, store);
      if AllText(vs) && |vs| > 0 {
        v := Text(PathJoined(vs[0].s, Texts(vs[1..])));
      }
      assert EvaluatesAll(args, store, vs) && PathGives(vs, v);
  }

  lemma {:induction false} CollectedAll(es: seq<Expr>, env: Env, store: Store) returns (vs: seq<Val>)
    requires Realises(store, env) && forall i :: 0 <= i < |es| ==> Collected(es[i], env)
    ensures EvaluatesAll(es, store, vs) && |vs| == |es|
    ensures forall i :: 0 <= i < |es| && Wild(es[i]) ==> vs[i] == Other(0)
    decreases es
  {
    vs := [];
    if |es| > 0 {
      var first := CollectedEvaluates(es[0], env, store);
      var rest := CollectedAll(es[1..], env, store);
      vs := [first] + rest;
      assert vs[1..] == rest;
      forall i | 0 < i < |es| && Wild(es[i])
        ensures vs[i] == Other(0)
      {
        assert es[1..][i - 1] == es[i];
      }
    }
  }

  lemma {:induction false} CollectedPieceFormats(piece: Piece, env: Env, store: Store) returns (part: string)
    requires Realises(store, env) && CollectedPiece(piece, env)
    ensures EvaluatesPiece(piece, store, part)
    decreases piece
  {
    var v := CollectedEvaluates(piece.e, env, store);
    part := if v.Text? then Formatted(piece.conversion, piece.spec, v.s) else "";
  }

  lemma {:induction false} CollectedPieces(pieces: seq<Piece>, env: Env, store: Store) returns (parts: seq<string>)
    requires Realises(store, env) && forall i :: 0 <= i < |pieces| ==> CollectedPiece(pieces[i], env)
    ensures EvaluatesPieces(pieces, store, parts)
    decreases pieces
  {
    parts := [];
    if |pieces| > 0 {
      var first := CollectedPieceFormats(pieces[0], env, store);
      var rest := CollectedPieces(pieces[1..], env, store);
      parts := [first] + rest;
      assert parts[1..] == rest;
    }
  }

  // ---- main results ---------------------------------------------------------------------------

  /** Every assignment folds, or has an undecided operand among names that are collected. */
  predicate FoldsOrWild(assigns: seq<Assign>, env: Env) {
    forall i :: 0 <= i < |assigns| ==>
      FoldExpr(assigns[i].value, env, 0).Some? || (Wild(assigns[i].value) && Collected(assigns[i].value, env))
  }

  /**
   When every assignment folds, or has an operand that the folder does not look
   into, the collected environment is sound for all runs exactly when one more
   look at the assignments would contradict none of the single values it holds:
   every assignment to such a name folds, and to that value.
   */
  lemma SoundIffSettled(assigns: seq<Assign>)
    requires AllFaithful(assigns) && FoldsOrWild(assigns, FoldEnv(assigns))
    ensures Sound(assigns, FoldEnv(assigns)) <==> Settled(assigns, FoldEnv(assigns))
  {
    var env := FoldEnv(assigns);
    if Settled(assigns, env) {
      SettledIsSound(assigns, env);
    } else {
      EnvReached(assigns);
      var run: seq<Event> :| Valid(assigns, run) && Realises(StoreAfter(assigns, run), env);
      var i, k :| 0 <= i < |assigns| && 0 <= k < |assigns[i].targets| && assigns[i].targets[k] in env
        && |env[assigns[i].targets[k]]| == 1
        && FoldExpr(assigns[i].value, env, 0) != Some(env[assigns[i].targets[k]][0]);
      var v: Val;
      if FoldExpr(assigns[i].value, env, 0).Some? {
        v := Text(FoldExpr(assigns[i].value, env, 0).value);
        FoldReached(assigns[i].value, env, 0, StoreAfter(assigns, run));
      } else {
        v := CollectedEvaluates(assigns[i].value, env, StoreAfter(assigns, run));
      }
      UnsettledRun(assigns, env, run, i, k, v);
    }
  }

  /** One more event that gives a name another value than the one collected. */
  lemma UnsettledRun(assigns: seq<Assign>, env: Env, run: seq<Event>, i: nat, k: nat, v: Val)
    requires Valid(assigns, run) && i < |assigns| && k < |assigns[i].targets| && assigns[i].targets[k] in env
    requires |env[assigns[i].targets[k]]| == 1 && v != Text(env[assigns[i].targets[k]][0])
    requires Evaluates(assigns[i].value, StoreAfter(assigns, run), v)
    ensures !Sound(assigns, env)
  {
    var x := assigns[i].targets[k];
    var longer := run + [Event(i, v)];
    assert longer[..|longer| - 1] == run;
    AssignedElsewhere(StoreAfter(assigns, run), assigns[i].targets, v, x);
    assert Valid(assigns, longer);
    assert Evaluates(Name(x), StoreAfter(assigns, longer), v);
    assert FoldExpr(Name(x), env, 0) == Some(env[x][0]);
  }

  predicate SingleValued(env: Env) {
    forall x :: x in env ==> |env[x]| == 1
  }

  lemma {:induction false} BindAllContains(env: Env, targets: seq<string>, s: string, k: nat)
    requires k < |targets|
    ensures targets[k] in BindAll(env, targets, s) && s in BindAll(env, targets, s)[targets[k]]
  {
    if k < |targets| - 1 {
      BindAllContains(env, targets[..|targets| - 1], s, k);
    }
  }

  lemma {:induction false} FixpointVisits(env: Env, assigns: seq<Assign>, n: nat)
    requires n <= |assigns| && OnePass(env, assigns) == env
    ensures OnePass(env, assigns[..n]) == env
    decreases |assigns|
  {
    if n == |assigns| {
      assert assigns[..n] == assigns;
    } else {
      var init, last := assigns[..|assigns| - 1], assigns[|assigns| - 1];
      OnePassGrows(env, init);
      OnePassGrows(OnePass(env, init), [last]);
      assert [last][..0] == [];
      assert OnePass(OnePass(env, init), [last]) == Visit(OnePass(env, init), last);
      GrowsBothWays(env, OnePass(env, init));
      assert init[..n] == assigns[..n];
      FixpointVisits(env, init, n);
    }
  }

  /**
   The loop's own exit gives the condition: an environment that a further pass
   would not change, in which every bucket holds one value and every assignment
   folds, is settled.
   */
  lemma StableEnvIsSettled(assigns: seq<Assign>, env: Env)
    requires OnePass(env, assigns) == env && SingleValued(env) && AllFold(assigns, env)
    ensures Settled(assigns, env)
  {
    forall i, k | 0 <= i < |assigns| && 0 <= k < |assigns[i].targets| && assigns[i].targets[k] in env
      && |env[assigns[i].targets[k]]| == 1
      ensures FoldExpr(assigns[i].value, env, 0) == Some(env[assigns[i].targets[k]][0])
    {
      FixpointVisits(env, assigns, i);
      FixpointVisits(env, assigns, i + 1);
      assert assigns[..i + 1][..i] == assigns[..i];
      var s := FoldExpr(assigns[i].value, env, 0).value;
      assert BindAll(env, assigns[i].targets, s) == env;
      BindAllContains(env, assigns[i].targets, s, k);
    }
  }

  // ---- where the folder is wrong -------------------------------------------------------------

  /** Six assignments that need five passes. */
  const LATE: seq<Assign> := [
    Assign(["x"], Name("b")), Assign(["x"], Const("u")), Assign(["b"], Name("c")),
    Assign(["c"], Name("d")), Assign(["d"], Name("e")), Assign(["e"], Const("v"))]

  const LATE_ENV: Env := map["x" := ["u"], "b" := ["v"], "c" := ["v"], "d" := ["v"], "e" := ["v"]]

  lemma VisitOne(env: Env, x: string, e: Expr)
    ensures Visit(env, Assign([x], e)) == match FoldExpr(e, env, 0) case Some(s) => Bind(env, x, s) case None => env
  {
    if s :| FoldExpr(e, env, 0) == Some(s) {
      assert [x][..0] == [];
      assert BindAll(env, [], s) == env;
    }
  }

  lemma LatePass(env: Env)
    ensures OnePass(env, LATE) ==
      Visit(Visit(Visit(Visit(Visit(Visit(env, LATE[0]), LATE[1]), LATE[2]), LATE[3]), LATE[4]), LATE[5])
  {
    assert LATE[..5][..4] == LATE[..4] && LATE[..4][..3] == LATE[..3] && LATE[..3][..2] == LATE[..2];
    assert LATE[..2][..1] == LATE[..1] && LATE[..1][..0] == [];
    assert OnePass(env, LATE[..1]) == Visit(env, LATE[0]);
    assert OnePass(env, LATE[..2]) == Visit(OnePass(env, LATE[..1]), LATE[1]);
    assert OnePass(env, LATE[..3]) == Visit(OnePass(env, LATE[..2]), LATE[2]);
    assert OnePass(env, LATE[..4]) == Visit(OnePass(env, LATE[..3]), LATE[3]);
    assert OnePass(env, LATE[..5]) == Visit(OnePass(env, LATE[..4]), LATE[4]);
  }

  lemma LateFirstPass()
    ensures OnePass(map[], LATE) == map["x" := ["u"], "e" := ["v"]]
  {
    LatePass(map[]);
    VisitOne(map[], "x", Name("b"));
    VisitOne(map[], "x", Const("u"));
    var env: Env := map["x" := ["u"]];
    VisitOne(env, "b", Name("c"));
    VisitOne(env, "c", Name("d"));
    VisitOne(env, "d", Name("e"));
    VisitOne(env, "e", Const("v"));
  }

  lemma BindOnce(env: Env, x: string, s: string)
    requires x in env ==> env[x] == [s]
    ensures Bind(env, x, s) == env[x := [s]]
  {
  }

  /** A later pass resolves one more link of the chain, from the end. */
  lemma LateNextPass(env: Env)
    requires "x" in env && env["x"] == ["u"] && "e" in env && env["e"] == ["v"] && "b" !in env
    requires forall y :: y in env && y != "x" ==> env[y] == ["v"]
    ensures var env' := if "c" in env then env["b" := ["v"]] else env;
            var env'' := if "d" in env then env'["c" := ["v"]] else env';
      OnePass(env, LATE) == env''["d" := ["v"]]
  {
    LatePass(env);
    VisitOne(env, "x", Name("b"));
    VisitOne(env, "x", Const("u"));
    VisitOne(env, "b", Name("c"));
    var env' := if "c" in env then env["b" := ["v"]] else env;
    BindOnce(env, "b", "v");
    VisitOne(env', "c", Name("d"));
    var env'' := if "d" in env then env'["c" := ["v"]] else env';
    BindOnce(env', "c", "v");
    VisitOne(env'', "d", Name("e"));
    BindOnce(env'', "d", "v");
    VisitOne(env''["d" := ["v"]], "e", Const("v"));
  }

  lemma LateSecondPass()
    ensures OnePass(map["x" := ["u"], "e" := ["v"]], LATE) == map["x" := ["u"], "e" := ["v"], "d" := ["v"]]
  {
    LateNextPass(map["x" := ["u"], "e" := ["v"]]);
  }

  lemma LateThirdPass()
    ensures OnePass(map["x" := ["u"], "e" := ["v"], "d" := ["v"]], LATE)
         == map["x" := ["u"], "e" := ["v"], "d" := ["v"], "c" := ["v"]]
  {
    var env: Env := map["x" := ["u"], "e" := ["v"], "d" := ["v"]];
    LateNextPass(env);
    assert env["c" := ["v"]]["d" := ["v"]] == map["x" := ["u"], "e" := ["v"], "d" := ["v"], "c" := ["v"]];
  }

  lemma LateFourthPass()
    ensures OnePass(map["x" := ["u"], "e" := ["v"], "d" := ["v"], "c" := ["v"]], LATE) == LATE_ENV
  {
    var env: Env := map["x" := ["u"], "e" := ["v"], "d" := ["v"], "c" := ["v"]];
    LateNextPass(env);
    assert env["b" := ["v"]]["c" := ["v"]]["d" := ["v"]] == LATE_ENV;
  }

  /** One pass that changes something, then the passes left. */
  lemma OnePassMore(env: Env, grown: Env, assigns: seq<Assign>, n: nat, last: Env)
    requires OnePass(env, assigns) == grown && env != grown && Passes(grown, assigns, n) == last
    ensures Passes(env, assigns, n + 1) == last
  {
  }

  lemma LateEnvironment()
    ensures FoldEnv(LATE) == LATE_ENV
  {
    var e1: Env := map["x" := ["u"], "e" := ["v"]];
    var e2: Env := map["x" := ["u"], "e" := ["v"], "d" := ["v"]];
    var e3: Env := map["x" := ["u"], "e" := ["v"], "d" := ["v"], "c" := ["v"]];
    assert "x" in e1 && "d" in e2 && "d" !in e1 && "c" in e3 && "c" !in e2 && "b" in LATE_ENV && "b" !in e3;
    LateFourthPass();
    OnePassMore(e3, LATE_ENV, LATE, 0, LATE_ENV);
    LateThirdPass();
    OnePassMore(e2, e3, LATE, 1, LATE_ENV);
    LateSecondPass();
    OnePassMore(e1, e2, LATE, 2, LATE_ENV);
    LateFirstPass();
    OnePassMore(map[], e1, LATE, 3, LATE_ENV);
  }

  lemma LateFolds()
    ensures AllFaithful(LATE) && AllFold(LATE, LATE_ENV) && SingleValued(LATE_ENV)
  {
  }

  /** An assignment from a name that holds something else. */
  lemma FirstUnsettled(assigns: seq<Assign>, env: Env, x: string, y: string)
    requires |assigns| > 0 && assigns[0] == Assign([x], Name(y))
    requires x in env && y in env && |env[x]| == |env[y]| == 1 && env[x][0] != env[y][0]
    ensures !Settled(assigns, env)
  {
    assert assigns[0].targets[0] == x;
  }

  /**
   Four passes are not always enough: here every assignment folds and every
   bucket holds one value, yet `x` folds to "u" while a run can leave "v" in it.
   */
  lemma FourPassesCanMislead()
    ensures AllFaithful(LATE) && AllFold(LATE, FoldEnv(LATE)) && SingleValued(FoldEnv(LATE))
    ensures FoldExpr(Name("x"), FoldEnv(LATE), 0) == Some("u")
    ensures !Sound(LATE, FoldEnv(LATE))
  {
    LateEnvironment();
    LateFolds();
    FirstUnsettled(LATE, LATE_ENV, "x", "b");
    SoundIffSettled(LATE);
  }

  lemma TwoAssigns(env: Env, a: Assign, b: Assign)
    ensures OnePass(env, [a, b]) == Visit(Visit(env, a), b)
  {
    assert [a, b][..1] == [a] && [a][..0] == [];
    assert OnePass(env, [a]) == Visit(env, a);
  }

  lemma UndecidedEnv(x: string, s: string, value: Expr)
    requires Wild(value)
    ensures FoldEnv([Assign([x], Const(s)), Assign([x], value)]) == map[x := [s]]
  {
    var a, b, env := Assign([x], Const(s)), Assign([x], value), map[x := [s]];
    TwoAssigns(map[], a, b);
    TwoAssigns(env, a, b);
    VisitOne(map[], x, Const(s));
    VisitOne(env, x, Const(s));
    WildNeverFolds(value, env, 0);
    OnePassMore(map[], env, [a, b], 3, env);
  }

  lemma UnsettledAt(assigns: seq<Assign>, env: Env, i: nat, x: string)
    requires i < |assigns| && assigns[i].targets == [x] && x in env && |env[x]| == 1
    requires FoldExpr(assigns[i].value, env, 0).None?
    ensures !Settled(assigns, env)
  {
    assert assigns[i].targets[0] == x;
  }

  lemma UndecidedAssigns(x: string, s: string, value: Expr)
    requires Wild(value) && Collected(value, map[x := [s]]) && Faithful(value)
    ensures var assigns := [Assign([x], Const(s)), Assign([x], value)];
      AllFaithful(assigns) && FoldsOrWild(assigns, map[x := [s]]) && !Settled(assigns, map[x := [s]])
  {
    WildNeverFolds(value, map[x := [s]], 0);
    UnsettledAt([Assign([x], Const(s)), Assign([x], value)], map[x := [s]], 1, x);
  }

  lemma UnsettledMisleads(assigns: seq<Assign>, env: Env)
    requires FoldEnv(assigns) == env && AllFaithful(assigns) && FoldsOrWild(assigns, env) && !Settled(assigns, env)
    ensures !Sound(assigns, env)
  {
    SoundIffSettled(assigns);
  }

  /** A name bound to a string, and elsewhere to something that does not fold, folds to the string. */
  lemma UndecidedBindingMisleads(x: string, s: string, value: Expr)
    requires Wild(value) && Collected(value, map[x := [s]]) && Faithful(value)
    ensures var assigns := [Assign([x], Const(s)), Assign([x], value)];
      && FoldExpr(Name(x), FoldEnv(assigns), 0) == Some(s)
      && !Sound(assigns, FoldEnv(assigns))
  {
    var assigns := [Assign([x], Const(s)), Assign([x], value)];
    UndecidedEnv(x, s, value);
    UndecidedAssigns(x, s, value);
    UnsettledMisleads(assigns, map[x := [s]]);
  }

  // ---- what declining loses -------------------------------------------------------------------

  lemma {:induction false} TargetsBound(assigns: seq<Assign>, run: seq<Event>, x: string) returns (i: nat)
    requires Valid(assigns, run) && x in StoreAfter(assigns, run)
    ensures i < |assigns| && x in assigns[i].targets
  {
    var last := run[|run| - 1];
    i := last.i;
    if x !in assigns[i].targets {
      AssignedElsewhere(StoreAfter(assigns, run[..|run| - 1]), assigns[i].targets, last.v, x);
      i := TargetsBound(assigns, run[..|run| - 1], x);
    }
  }

  /**
   With a stable environment of single values, in which everything folds, every value that
   any run gives a name is collected.
   */
  lemma NothingLost(assigns: seq<Assign>, env: Env, run: seq<Event>, x: string)
    requires OnePass(env, assigns) == env && SingleValued(env) && AllFold(assigns, env) && AllFaithful(assigns)
    requires Valid(assigns, run) && x in StoreAfter(assigns, run)
    ensures x in env && StoreAfter(assigns, run)[x] == Text(env[x][0])
  {
    StableEnvIsSettled(assigns, env);
    RunsAgree(assigns, env, run);
    var i := TargetsBound(assigns, run, x);
    var k :| 0 <= k < |assigns[i].targets| && assigns[i].targets[k] == x;
    FixpointVisits(env, assigns, i);
    FixpointVisits(env, assigns, i + 1);
    assert assigns[..i + 1][..i] == assigns[..i];
    BindAllContains(env, assigns[i].targets, FoldExpr(assigns[i].value, env, 0).value, k);
  }

  lemma ThreeAssigns(env: Env, a: Assign, b: Assign, c: Assign)
    ensures OnePass(env, [a, b, c]) == Visit(Visit(Visit(env, a), b), c)
  {
    assert [a, b, c][..2] == [a, b];
    TwoAssigns(env, a, b);
  }

  lemma AssignedOne(store: Store, x: string, v: Val)
    ensures Assigned(store, [x], v) == store[x := v]
  {
    assert [x][..0] == [];
  }

  /** `x = a`, elsewhere `x = b`, and `y = x + tail`. */
  function Declined(x: string, a: string, b: string, y: string, tail: string): seq<Assign> {
    [Assign([x], Const(a)), Assign([x], Const(b)), Assign([y], Add(Name(x), Const(tail)))]
  }

  lemma DeclinedEnv(x: string, a: string, b: string, y: string, tail: string)
    requires x != y && a != b
    ensures FoldEnv(Declined(x, a, b, y, tail)) == map[x := [a, b]]
  {
    var assigns, env: Env := Declined(x, a, b, y, tail), map[x := [a, b]];
    var one: Env := map[x := [a]];
    ThreeAssigns(map[], assigns[0], assigns[1], assigns[2]);
    ThreeAssigns(env, assigns[0], assigns[1], assigns[2]);
    VisitOne(map[], x, Const(a));
    VisitOne(one, x, Const(b));
    VisitOne(env, x, Const(a));
    VisitOne(env, x, Const(b));
    assert b !in one[x] && one[x] + [b] == [a, b];
    assert Bind(one, x, b) == env;
    assert FoldExpr(Name(x), env, 1).None? && FoldExpr(Add(Name(x), Const(tail)), env, 0).None?;
    OnePassMore(map[], env, assigns, 3, env);
  }

  /**
   Declining a name with two values loses what is built from it: a run gives `y`
   the string `a + tail`, and no binding folds to that string.
   */
  lemma DecliningLosesAValue(x: string, a: string, b: string, y: string, tail: string)
    requires x != y && a != b && a != "" && tail != "" && b != a + tail
    ensures var assigns := Declined(x, a, b, y, tail); var env := FoldEnv(assigns);
      && (exists run: seq<Event> {:trigger Valid(assigns, run)} ::
            Valid(assigns, run) && y in StoreAfter(assigns, run) && StoreAfter(assigns, run)[y] == Text(a + tail))
      && (forall i :: 0 <= i < |assigns| ==> FoldExpr(assigns[i].value, env, 0) != Some(a + tail))
      && FoldExpr(Name(y), env, 0).None?
  {
    var assigns, env: Env := Declined(x, a, b, y, tail), map[x := [a, b]];
    DeclinedEnv(x, a, b, y, tail);
    assert a != a + tail;
    assert FoldExpr(Name(x), env, 1).None?;
    var first, run := [Event(0, Text(a))], [Event(0, Text(a)), Event(2, Text(a + tail))];
    assert first[..0] == [] && run[..1] == first && [x][..0] == [] && [y][..0] == [];
    assert Valid(assigns, []) && Valid(assigns, first);
    assert StoreAfter(assigns, []) == map[];
    AssignedOne(map[], x, Text(a));
    assert StoreAfter(assigns, first) == map[x := Text(a)];
    assert Evaluates(Name(x), map[x := Text(a)], Text(a)) && Evaluates(Const(tail), map[x := Text(a)], Text(tail));
    assert AddGives(Text(a), Text(tail), Text(a + tail));
    assert Evaluates(assigns[2].value, map[x := Text(a)], Text(a + tail));
    assert Valid(assigns, run);
    AssignedElsewhere(StoreAfter(assigns, first), [y], Text(a + tail), y);
  }

  /** What a piece formats to where the folder knows its expression. */
  lemma PieceGives(piece: Piece, env: Env, depth: nat, store: Store, part: string)
    requires Realises(store, env) && Faithful(piece.e) && FoldPiece(piece, env, depth).Some?
    ensures EvaluatesPiece(piece, store, part)
       <==> part == Formatted(piece.conversion, piece.spec, FoldPiece(piece, env, depth).value)
  {
    var s := FoldPiece(piece, env, depth).value;
    FoldReached(piece.e, env, depth, store);
    if EvaluatesPiece(piece, store, part) {
      var v: Val :| Evaluates(piece.e, store, v) && (v.Text? ==> part == Formatted(piece.conversion, piece.spec, v.s));
      FoldSound(piece.e, env, depth, store, v);
    }
  }

  lemma OneFieldGives(piece: Piece, store: Store, s: string)
    ensures Evaluates(FString([piece]), store, Text(s)) <==> EvaluatesPiece(piece, store, s)
  {
    assert [piece][1..] == [] && [s][1..] == [] && Concat([s]) == s;
    assert EvaluatesPieces([], store, []);
    if Evaluates(FString([piece]), store, Text(s)) {
      var parts: seq<string> :| EvaluatesPieces([piece], store, parts) && Text(s) == Text(Concat(parts));
      assert parts == [parts[0]] && Concat(parts) == parts[0];
    }
    if EvaluatesPiece(piece, store, s) {
      assert EvaluatesPieces([piece], store, [s]);
    }
  }

  /**
   The folder ignores conversions and format specifications.  A field whose
   precision cuts nothing folds to what Python formats if and only if it does
   not quote the string and the string fills the width.  One that does not quote
   and cuts does so if and only if the padding puts back what was cut off.  One
   that quotes and cuts can do so only if the result has the old length.
   */
  lemma FieldFoldsRightIff(piece: Piece, env: Env, depth: nat, store: Store)
    requires Realises(store, env) && Faithful(piece.e) && FoldExpr(FString([piece]), env, depth).Some?
    ensures FoldExpr(piece.e, env, depth + 1).Some?
    ensures FoldExpr(FString([piece]), env, depth) == FoldExpr(piece.e, env, depth + 1)
    ensures var s := FoldExpr(piece.e, env, depth + 1).value; var right := Evaluates(FString([piece]), store, Text(s));
      if !Cuts(piece.conversion, piece.spec, s) then right <==> !piece.conversion.Quoted? && piece.spec.width <= |s|
      else if !piece.conversion.Quoted? then right <==> Refills(piece.spec, s)
      else
        right ==>
          |s| == if piece.spec.width > piece.spec.precision.value then piece.spec.width else piece.spec.precision.value
  {
    assert [piece][1..] == [];
    assert FoldPieces([], env, depth + 1) == Some([]);
    assert FoldPieces([piece], env, depth + 1).Some? && FoldPiece([piece][0], env, depth + 1).Some?;
    var s := FoldExpr(piece.e, env, depth + 1).value;
    assert [s] + [] == [s] && Concat([s]) == s;
    OneFieldGives(piece, store, s);
    PieceGives(piece, env, depth + 1, store, s);
    if Cuts(piece.conversion, piece.spec, s) && !piece.conversion.Quoted? {
      CutKeepsIff(piece.spec, s);
    }
  }

  /** The fields that fold right whatever string they hold are those that leave every string alone. */
  lemma FieldFoldsRightAlways(conversion: Conversion, spec: Spec, store: Store)
    ensures Transparent(conversion, spec)
       <==> forall s: string {:trigger Const(s)} :: EvaluatesPiece(Piece(Const(s), conversion, spec), store, s)
  {
    TransparentIff(conversion, spec);
    forall s: string
      ensures EvaluatesPiece(Piece(Const(s), conversion, spec), store, s) <==> Formatted(conversion, spec, s) == s
    {
      PieceGives(Piece(Const(s), conversion, spec), map[], 0, map[], s);
      assert Evaluates(Const(s), store, Text(s));
    }
    if !Transparent(conversion, spec) {
      var s :| Formatted(conversion, spec, s) != s;
      assert !EvaluatesPiece(Piece(Const(s), conversion, spec), store, s);
      assert Const(s) == Const(s);
    }
  }

  lemma {:induction false} JoinLength(q: string, parts: seq<string>)
    requires forall i :: 0 <= i < |parts| ==> |parts[i]| == 1
    ensures |JoinWith(q, parts)| >= |parts|
    ensures |parts| > 1 && q != "" ==> |JoinWith(q, parts)| > |parts|
  {
    if |parts| > 1 {
      JoinLength(q, parts[1..]);
    }
  }

  lemma {:induction false} CharsAre(s: string)
    ensures |Chars(s)| == |s| && forall i :: 0 <= i < |s| ==> Chars(s)[i] == [s[i]]
  {
    if s != "" {
      CharsAre(s[1..]);
    }
  }

  lemma {:induction false} JoinOfNothing(s: string)
    ensures JoinWith("", Chars(s)) == s
  {
    if |s| == 1 {
      CharsAre(s);
    } else if |s| > 1 {
      CharsAre(s);
      JoinOfNothing(s[1..]);
      assert Chars(s)[1..] == Chars(s[1..]);
    }
  }

  /** Joining the characters of a string gives the string back only when there is nothing to put between them. */
  lemma JoinKeepsIff(q: string, s: string)
    ensures JoinWith(q, Chars(s)) == s <==> |s| <= 1 || q == ""
  {
    CharsAre(s);
    JoinLength(q, Chars(s));
    if q == "" {
      JoinOfNothing(s);
    }
  }

  /** What joining one string evaluates to. */
  lemma JoinOfOneGives(sep: Expr, e: Expr, env: Env, depth: nat, store: Store, v: Val)
    requires Realises(store, env) && Faithful(sep) && Faithful(e)
    requires FoldExpr(sep, env, depth).Some? && FoldExpr(e, env, depth).Some?
    ensures Evaluates(SepJoin(sep, false, [e]), store, v)
       <==> v == Text(JoinWith(FoldExpr(sep, env, depth).value, Chars(FoldExpr(e, env, depth).value)))
  {
    var q, s := Text(FoldExpr(sep, env, depth).value), Text(FoldExpr(e, env, depth).value);
    FoldReached(sep, env, depth, store);
    FoldReached(e, env, depth, store);
    if Evaluates(SepJoin(sep, false, [e]), store, v) {
      var a: Val, vs: seq<Val> :| Evaluates(sep, store, a) && EvaluatesAll([e], store, vs)
          && JoinGives(a, false, vs, v);
      FoldSound(sep, env, depth, store, a);
      FoldSound(e, env, depth, store, vs[0]);
    }
    if v == Text(JoinWith(q.s, Chars(s.s))) {
      assert EvaluatesAll([e], store, [s]) by {
        assert [e][1..] == [] && [s][1..] == [];
      }
      assert JoinGives(q, false, [s], v);
    }
  }

  /**
   The folder joins a single string as one element, and Python joins its
   characters.  It is right if and only if the string has at most one character
   or the separator is empty.
   */
  lemma JoinOfOneFoldsRightIff(sep: Expr, e: Expr, env: Env, depth: nat, store: Store)
    requires Realises(store, env) && Faithful(sep) && Faithful(e)
    requires FoldExpr(SepJoin(sep, false, [e]), env, depth).Some?
    ensures FoldExpr(sep, env, depth + 1).Some? && FoldExpr(e, env, depth + 1).Some?
    ensures var s := FoldExpr(e, env, depth + 1).value;
      && FoldExpr(SepJoin(sep, false, [e]), env, depth) == Some(s)
      && (Evaluates(SepJoin(sep, false, [e]), store, Text(s))
          <==> |s| <= 1 || FoldExpr(sep, env, depth + 1).value == "")
  {
    assert [e][1..] == [];
    assert FoldAll([], env, depth + 1) == Some([]);
    var s := FoldExpr(e, env, depth + 1).value;
    assert [s] + [] == [s];
    JoinOfOneGives(sep, e, env, depth + 1, store, Text(s));
    JoinKeepsIff(FoldExpr(sep, env, depth + 1).value, s);
  }
}
