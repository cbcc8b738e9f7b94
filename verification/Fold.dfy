/**
 The drift gate's constant folder: which string a Python expression denotes, as
 far as the source decides it, with an environment collected from assignments.
 */
module Fold {
  import opened Formats
  import opened Outcomes

  /** The expression forms the folder looks into; Opaque stands for every form it declines. */
  datatype Expr =
    | Const(s: string)
    | Opaque
    | Name(id: string)
    | Add(left: Expr, right: Expr)
    | FString(pieces: seq<Piece>)
    | SepJoin(sep: Expr, display: bool, elements: seq<Expr>)  // display: the argument is a list or tuple display
    | PathJoin(args: seq<Expr>)

  /** `{e!conversion:spec}` in an f-string; its literal text is a piece with neither. */
  datatype Piece = Piece(e: Expr, conversion: Conversion, spec: Spec)

  /** Every binding of a name; forms the folder does not collect carry an Opaque value. */
  datatype Assign = Assign(targets: seq<string>, value: Expr)

  type Env = map<string, seq<string>>

  const MAX_DEPTH := 12
  const MAX_PASSES := 4

  function Concat(parts: seq<string>): string {
    if |parts| == 0 then "" else parts[0] + Concat(parts[1..])
  }

  /** `separator.join(parts)`. */
  function JoinWith(separator: string, parts: seq<string>): string {
    if |parts| == 0 then ""
    else if |parts| == 1 then parts[0]
    else parts[0] + separator + JoinWith(separator, parts[1..])
  }

  /** `os.path.join` of two parts on POSIX. */
  function PathStep(path: string, part: string): string {
    if |part| > 0 && part[0] == '/' then part
    else if |path| == 0 || path[|path| - 1] == '/' then path + part
    else path + "/" + part
  }

  function PathJoined(path: string, parts: seq<string>): string
    decreases |parts|
  {
    if |parts| == 0 then path else PathJoined(PathStep(path, parts[0]), parts[1..])
  }

  /** The string the expression denotes, when the environment decides it. */
  function FoldExpr(e: Expr, env: Env, depth: nat): Option<string>
    decreases e
  {
    if depth > MAX_DEPTH then None
    else
      match e
      case Const(s) => Some(s)
      case Opaque => None
      case Name(id) => if id in env && |env[id]| == 1 then Some(env[id][0]) else None
      case Add(left, right) =>
        (match (FoldExpr(left, env, depth + 1), FoldExpr(right, env, depth + 1))
         case (Some(l), Some(r)) => Some(l + r)
         case (_, _) => None)
      case FString(pieces) =>
        (match FoldPieces(pieces, env, depth + 1)
         case Some(parts) => Some(Concat(parts))
         case None => None)
      case SepJoin(sep, _, elements) =>
        (match (FoldExpr(sep, env, depth + 1), FoldAll(elements, env, depth + 1))
         case (Some(s), Some(parts)) => Some(JoinWith(s, parts))
         case (_, _) => None)
      case PathJoin(args) =>
        (match FoldAll(args, env, depth + 1)
         case Some(parts) => if |parts| == 0 then None else Some(PathJoined(parts[0], parts[1..]))
         case None => None)
  }

  function FoldAll(es: seq<Expr>, env: Env, depth: nat): (r: Option<seq<string>>)
    ensures r.Some? ==> |r.value| == |es|
    decreases es
  {
    if |es| == 0 then Some([])
    else
      match (FoldExpr(es[0], env, depth), FoldAll(es[1..], env, depth))
      case (Some(first), Some(rest)) => Some([first] + rest)
      case (_, _) => None
  }

  /** The conversion and the format specification are ignored. */
  function FoldPiece(piece: Piece, env: Env, depth: nat): Option<string>
    decreases piece
  {
    FoldExpr(piece.e, env, depth)
  }

  function FoldPieces(pieces: seq<Piece>, env: Env, depth: nat): (r: Option<seq<string>>)
    ensures r.Some? ==> |r.value| == |pieces|
    decreases pieces
  {
    if |pieces| == 0 then Some([])
    else
      match (FoldPiece(pieces[0], env, depth), FoldPieces(pieces[1..], env, depth))
      case (Some(first), Some(rest)) => Some([first] + rest)
      case (_, _) => None
  }

  // ---- collecting the environment ---------------------------------------------------

  /** `bucket = env.setdefault(target, [])`, then `append` unless it is there. */
  function Bind(env: Env, target: string, s: string): Env {
    if target !in env then env[target := [s]]
    else if s in env[target] then env
    else env[target := env[target] + [s]]
  }

  function BindAll(env: Env, targets: seq<string>, s: string): Env {
    if |targets| == 0 then env else Bind(BindAll(env, targets[..|targets| - 1], s), targets[|targets| - 1], s)
  }

  function Visit(env: Env, a: Assign): Env {
    match FoldExpr(a.value, env, 0)
    case Some(s) => BindAll(env, a.targets, s)
    case None => env
  }

  /** One walk over the assignments, in source order. */
  function OnePass(env: Env, assigns: seq<Assign>): Env {
    if |assigns| == 0 then env else Visit(OnePass(env, assigns[..|assigns| - 1]), assigns[|assigns| - 1])
  }

  /** At most `n` passes, stopping after one that changed nothing. */
  function Passes(env: Env, assigns: seq<Assign>, n: nat): Env
    decreases n
  {
    if n == 0 || OnePass(env, assigns) == env then env else Passes(OnePass(env, assigns), assigns, n - 1)
  }

  function FoldEnv(assigns: seq<Assign>): Env {
    Passes(map[], assigns, MAX_PASSES)
  }

  // ---- the loop of fold_env ------------------------------------------------------------

  /** Every bucket of `a` is the beginning of the same bucket of `b`. */
  predicate Grows(a: Env, b: Env) {
    forall x :: x in a ==> x in b && a[x] <= b[x]
  }

  lemma {:induction false} BindAllGrows(env: Env, targets: seq<string>, s: string)
    ensures Grows(env, BindAll(env, targets, s))
  {
    if |targets| > 0 {
      BindAllGrows(env, targets[..|targets| - 1], s);
    }
  }

  lemma {:induction false} OnePassGrows(env: Env, assigns: seq<Assign>)
    ensures Grows(env, OnePass(env, assigns))
  {
    if |assigns| > 0 {
      var init, last := assigns[..|assigns| - 1], assigns[|assigns| - 1];
      OnePassGrows(env, init);
      var mid := OnePass(env, init);
      if s :| FoldExpr(last.value, mid, 0) == Some(s) {
        BindAllGrows(mid, last.targets, s);
      }
    }
  }

  /** Growing there and back means nothing changed. */
  lemma GrowsBothWays(a: Env, b: Env)
    requires Grows(a, b) && Grows(b, a)
    ensures a == b
  {
    forall x | x in a
      ensures a[x] == b[x]
    {
      assert a[x] <= b[x] <= a[x];
    }
  }

  lemma GrowsTransitive(a: Env, b: Env, c: Env)
    requires Grows(a, b) && Grows(b, c)
    ensures Grows(a, c)
  {
  }

  method CollectEnv(assigns: seq<Assign>) returns (env: Env)
    ensures env == FoldEnv(assigns)
  {
    env := map[];
    var changed := true;
    for pass := 0 to MAX_PASSES
      invariant FoldEnv(assigns) == Passes(env, assigns, MAX_PASSES - pass)
    {
      var before := env;
      changed := false;
      assert assigns[..0] == [];
      for i := 0 to |assigns|
        invariant env == OnePass(before, assigns[..i])
        invariant changed <==> env != before
        invariant Grows(before, env)
      {
        assert assigns[..i + 1][..i] == assigns[..i];
        var folded := FoldExpr(assigns[i].value, env, 0);
        if folded.Some? {
          var grown := BindTargets(env, assigns[i].targets, folded.value);
          BindAllGrows(env, assigns[i].targets, folded.value);
          GrowsTransitive(before, env, grown);
          if grown != env {
            changed := true;
            if grown == before {
              GrowsBothWays(env, grown);
            }
          }
          env := grown;
        }
      }
      assert assigns[..|assigns|] == assigns;
      if !changed {
        return;
      }
    }
  }

  method BindTargets(env: Env, targets: seq<string>, s: string) returns (r: Env)
    ensures r == BindAll(env, targets, s)
  {
    r := env;
    assert targets[..0] == [];
    for i := 0 to |targets|
      invariant r == BindAll(env, targets[..i], s)
    {
      assert targets[..i + 1][..i] == targets[..i];
      var bucket := if targets[i] in r then r[targets[i]] else [];
      assert [] + [s] == [s];
      if s !in bucket {
        r := r[targets[i] := bucket + [s]];
      }
    }
    assert targets[..|targets|] == targets;
  }
}
