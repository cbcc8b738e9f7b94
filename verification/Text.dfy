/** White space, words and splitting, as Python's `str` methods define them. */
module Text {
  /** `str.isspace` on one character. */
  predicate IsSpace(c: char) {
    || '\t' <= c <= '\r' || '\U{1c}' <= c <= ' ' || c == '\U{85}' || c == '\U{a0}' || c == '\U{1680}'
    || '\U{2000}' <= c <= '\U{200a}' || c == '\U{2028}' || c == '\U{2029}' || c == '\U{202f}' || c == '\U{205f}'
        || c == '\U{3000}'
  }

  function StripLeft(s: string): (r: string)
    ensures r == "" || !IsSpace(r[0])
  {
    if |s| > 0 && IsSpace(s[0]) then StripLeft(s[1..]) else s
  }

  function StripRight(s: string): string {
    if |s| > 0 && IsSpace(s[|s| - 1]) then StripRight(s[..|s| - 1]) else s
  }

  /** `str.strip()`. */
  function Strip(s: string): string {
    StripRight(StripLeft(s))
  }

  /** Where the word that `s` starts with ends. */
  function WordEnd(s: string): (n: nat)
    ensures n <= |s| && (|s| > 0 && !IsSpace(s[0]) ==> n > 0)
    ensures forall i :: 0 <= i < n ==> !IsSpace(s[i])
    ensures n < |s| ==> IsSpace(s[n])
  {
    if s == "" || IsSpace(s[0]) then 0 else 1 + WordEnd(s[1..])
  }

  /** `str.split()`. */
  function Words(s: string): seq<string>
    decreases |s|
  {
    if s == "" then []
    else if IsSpace(s[0]) then Words(s[1..])
    else [s[..WordEnd(s)]] + Words(s[WordEnd(s)..])
  }

  /** `separator.join(parts)`, for a one-character separator. */
  function Join(separator: char, parts: seq<string>): string {
    if |parts| == 0 then "" else if |parts| == 1 then parts[0] else parts[0] + [separator] + Join(separator, parts[1..])
  }

  /** Where `c` first occurs in `s`; the length of `s` when it does not. */
  function IndexOf(s: string, c: char): (n: nat)
    ensures n <= |s| && c !in s[..n] && (n < |s| ==> s[n] == c)
  {
    if s == "" || s[0] == c then 0
    else
      assert s[..1 + IndexOf(s[1..], c)] == [s[0]] + s[1..][..IndexOf(s[1..], c)];
      1 + IndexOf(s[1..], c)
  }

  /** `str.split(c)`: the pieces between the separators. */
  function SplitOn(s: string, c: char): (pieces: seq<string>)
    ensures |pieces| > 0
    decreases |s|
  {
    var n := IndexOf(s, c);
    if n == |s| then [s] else [s[..n]] + SplitOn(s[n + 1..], c)
  }

  // ---- facts -------------------------------------------------------------------------

  lemma {:induction false} IndexIs(s: string, c: char, n: nat)
    requires n < |s| && s[n] == c && c !in s[..n]
    ensures IndexOf(s, c) == n
  {
    if n > 0 {
      assert s[0] in s[..n];
      assert s[1..][..n - 1] == s[..n][1..];
      IndexIs(s[1..], c, n - 1);
    }
  }

  lemma WordEndInside(a: string, c: char, b: string)
    requires IsSpace(c)
    ensures WordEnd(a + [c] + b) == WordEnd(a)
  {
    var s := a + [c] + b;
    assert forall i :: 0 <= i < |a| ==> s[i] == a[i];
    assert s[|a|] == c;
  }

  predicate AllSpace(s: string) {
    forall i :: 0 <= i < |s| ==> IsSpace(s[i])
  }

  lemma {:induction false} StripLeftIs(s: string) returns (before: string)
    ensures s == before + StripLeft(s) && AllSpace(before)
  {
    before := "";
    if |s| > 0 && IsSpace(s[0]) {
      var more := StripLeftIs(s[1..]);
      before := [s[0]] + more;
    }
  }

  lemma {:induction false} StripRightIs(s: string) returns (behind: string)
    ensures s == StripRight(s) + behind && AllSpace(behind)
    ensures StripRight(s) == "" || !IsSpace(StripRight(s)[|StripRight(s)| - 1])
  {
    behind := "";
    if |s| > 0 && IsSpace(s[|s| - 1]) {
      var more := StripRightIs(s[..|s| - 1]);
      behind := more + [s[|s| - 1]];
    }
  }

  /** Stripping takes the white space off both ends, and nothing is left exactly when there was nothing else. */
  lemma StripIs(s: string) returns (before: string, behind: string)
    ensures s == before + Strip(s) + behind && AllSpace(before) && AllSpace(behind)
    ensures Strip(s) == "" || (!IsSpace(Strip(s)[0]) && !IsSpace(Strip(s)[|Strip(s)| - 1]))
    ensures Strip(s) == "" <==> AllSpace(s)
  {
    before := StripLeftIs(s);
    behind := StripRightIs(StripLeft(s));
    if Strip(s) != "" {
      assert Strip(s)[0] == StripLeft(s)[0];
      assert s[|before|] == Strip(s)[0];
    }
  }

  /** A text without white space is one word, or none when it is empty. */
  lemma OneWord(s: string)
    requires forall i :: 0 <= i < |s| ==> !IsSpace(s[i])
    ensures Words(s) == if s == "" then [] else [s]
  {
    if s != "" {
      assert WordEnd(s) == |s|;
      assert s[..|s|] == s && s[|s|..] == "";
    }
  }

  /** A separator ends a piece and starts the next; a text without one is one piece. */
  lemma SplitIs(piece: string, c: char, rest: string)
    requires c !in piece
    ensures SplitOn(piece, c) == [piece]
    ensures SplitOn(piece + [c] + rest, c) == [piece] + SplitOn(rest, c)
  {
    var s := piece + [c] + rest;
    assert s[..|piece|] == piece && s[|piece| + 1..] == rest;
    IndexIs(s, c, |piece|);
  }

  lemma {:induction false} PiecesHoldNone(s: string, c: char)
    ensures forall piece :: piece in SplitOn(s, c) ==> c !in piece && forall x :: x in piece ==> x in s
    decreases |s|
  {
    var n := IndexOf(s, c);
    if n < |s| {
      PiecesHoldNone(s[n + 1..], c);
      forall piece | piece in SplitOn(s, c)
        ensures c !in piece && forall x :: x in piece ==> x in s
      {
        assert piece == s[..n] || piece in SplitOn(s[n + 1..], c);
      }
    }
  }

  /** Pieces without the separator come back from their join. */
  lemma {:induction false} SplitJoin(pieces: seq<string>, c: char)
    requires |pieces| > 0 && forall piece :: piece in pieces ==> c !in piece
    ensures SplitOn(Join(c, pieces), c) == pieces
  {
    if |pieces| == 1 {
      SplitIs(pieces[0], c, "");
    } else {
      SplitJoin(pieces[1..], c);
      SplitIs(pieces[0], c, Join(c, pieces[1..]));
    }
  }

  lemma {:induction false} JoinHolds(pieces: seq<string>, c: char, x: char)
    requires x in Join(c, pieces)
    ensures x == c || exists piece :: piece in pieces && x in piece
  {
    if |pieces| > 1 && x !in pieces[0] && x != c {
      assert Join(c, pieces) == pieces[0] + [c] + Join(c, pieces[1..]);
      JoinHolds(pieces[1..], c, x);
    } else {
      assert |pieces| > 0 && pieces[0] in pieces;
    }
  }

  /** White space between two texts separates their words. */
  lemma {:induction false} WordsApart(a: string, c: char, b: string)
    requires IsSpace(c)
    ensures Words(a + [c] + b) == Words(a) + Words(b)
    decreases |a|
  {
    var s := a + [c] + b;
    if a == "" {
      assert s[1..] == b;
    } else if IsSpace(a[0]) {
      assert s[1..] == a[1..] + [c] + b;
      WordsApart(a[1..], c, b);
    } else {
      var n := WordEnd(a);
      WordEndInside(a, c, b);
      assert s[..n] == a[..n] && s[n..] == a[n..] + [c] + b;
      WordsApart(a[n..], c, b);
    }
  }

  lemma {:induction false} WordsStripLeft(s: string)
    ensures Words(StripLeft(s)) == Words(s)
  {
    if |s| > 0 && IsSpace(s[0]) {
      WordsStripLeft(s[1..]);
    }
  }

  lemma {:induction false} WordsStripRight(s: string)
    ensures Words(StripRight(s)) == Words(s)
  {
    if |s| > 0 && IsSpace(s[|s| - 1]) {
      WordsStripRight(s[..|s| - 1]);
      assert s == s[..|s| - 1] + [s[|s| - 1]] + "";
      WordsApart(s[..|s| - 1], s[|s| - 1], "");
    }
  }

  /** Stripping loses no word. */
  lemma WordsStrip(s: string)
    ensures Words(Strip(s)) == Words(s)
  {
    WordsStripLeft(s);
    WordsStripRight(StripLeft(s));
  }

  /** The words of each text in turn. */
  function AllWords(parts: seq<string>): seq<string> {
    if |parts| == 0 then [] else Words(parts[0]) + AllWords(parts[1..])
  }

  lemma {:induction false} WordsJoin(separator: char, parts: seq<string>)
    requires IsSpace(separator)
    ensures Words(Join(separator, parts)) == AllWords(parts)
  {
    if |parts| > 1 {
      WordsApart(parts[0], separator, Join(separator, parts[1..]));
      WordsJoin(separator, parts[1..]);
    } else if |parts| == 1 {
      assert AllWords(parts[1..]) == [];
    }
  }
}
