/** Which expressions the folder decides. */
module FoldShape {
  import opened Outcomes
  import opened Fold

  function Higher(a: nat, b: nat): nat {
    if a < b then b else a
  }

  /** How many steps the deepest operand lies below the expression. */
  function Height(e: Expr): nat
    decreases e
  {
    match e
    case Add(left, right) => 1 + Higher(Height(left), Height(right))
    case FString(pieces) => PiecesHeight(pieces)
    case SepJoin(sep, _, elements) => Higher(1 + Height(sep), ListHeight(elements))
    case PathJoin(args) => ListHeight(args)
    case _ => 0
  }

  /** The height of a list of operands, seen from the expression above them. */
  function ListHeight(es: seq<Expr>): nat
    decreases es
  {
    if |es| == 0 then 0 else Higher(1 + Height(es[0]), ListHeight(es[1..]))
  }

  function PieceHeight(piece: Piece): nat
    decreases piece
  {
    Height(piece.e)
  }

  function PiecesHeight(pieces: seq<Piece>): nat
    decreases pieces
  {
    if |pieces| == 0 then 0 else Higher(1 + PieceHeight(pieces[0]), PiecesHeight(pieces[1..]))
  }

  /** Every operand is one the folder looks into, every name has one value, and no path is joined of nothing. */
  predicate Decided(e: Expr, env: Env)
    decreases e
  {
    match e
    case Const(_) => true
    case Opaque => false
    case Name(id) => id in env && |env[id]| == 1
    case Add(left, right) => Decided(left, env) && Decided(right, env)
    case FString(pieces) => forall i :: 0 <= i < |pieces| ==> DecidedPiece(pieces[i], env)
    case SepJoin(sep, _, elements) => Decided(sep, env) && forall i :: 0 <= i < |elements| ==> Decided(elements[i], env)
    case PathJoin(args) => |args| > 0 && forall i :: 0 <= i < |args| ==> Decided(args[i], env)
  }

  predicate DecidedPiece(piece: Piece, env: Env)
    decreases piece
  {
    Decided(piece.e, env)
  }

  /** The folder answers exactly for the decided expressions that end within twelve steps. */
  lemma {:induction false} FoldsIff(e: Expr, env: Env, depth: nat)
    ensures FoldExpr(e, env, depth).Some? <==> Decided(e, env) && depth + Height(e) <= 12
    decreases e
  {
    match e
    case Add(left, right) =>
      FoldsIff(left, env, depth + 1);
      FoldsIff(right, env, depth + 1);
    case FString(pieces) => PiecesFoldIff(pieces, env, depth);
    case SepJoin(sep, _, elements) =>
      FoldsIff(sep, env, depth + 1);
      ListFoldsIff(elements, env, depth);
    case PathJoin(args) => ListFoldsIff(args, env, depth);
    case _ =>
  }

  lemma {:induction false} ListFoldsIff(es: seq<Expr>, env: Env, depth: nat)
    ensures depth <= 12 ==>
      (FoldAll(es, env, depth + 1).Some?
       <==> (forall i :: 0 <= i < |es| ==> Decided(es[i], env)) && depth + ListHeight(es) <= 12)
    decreases es
  {
    if |es| > 0 {
      FoldsIff(es[0], env, depth + 1);
      ListFoldsIff(es[1..], env, depth);
      assert forall i :: 0 < i < |es| ==> es[i] == es[1..][i - 1];
    }
  }

  lemma {:induction false} PieceFoldsIff(piece: Piece, env: Env, depth: nat)
    ensures FoldPiece(piece, env, depth).Some? <==> DecidedPiece(piece, env) && depth + PieceHeight(piece) <= 12
    decreases piece
  {
    FoldsIff(piece.e, env, depth);
  }

  lemma {:induction false} PiecesFoldIff(pieces: seq<Piece>, env: Env, depth: nat)
    ensures depth <= 12 ==>
      (FoldPieces(pieces, env, depth + 1).Some?
       <==> (forall i :: 0 <= i < |pieces| ==> DecidedPiece(pieces[i], env)) && depth + PiecesHeight(pieces) <= 12)
    decreases pieces
  {
    if |pieces| > 0 {
      PieceFoldsIff(pieces[0], env, depth + 1);
      PiecesFoldIff(pieces[1..], env, depth);
      assert forall i :: 0 < i < |pieces| ==> pieces[i] == pieces[1..][i - 1];
    }
  }
}
