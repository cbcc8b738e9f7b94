/** What the joins of the folder are, by lengths and slices and without their recursions. */
module Joins {
  import opened Fold

  // ---- concatenation ------------------------------------------------------------------

  /** The length of the first `n` parts together. */
  function Extent(parts: seq<string>, n: nat): nat
    requires n <= |parts|
  {
    if n == 0 then 0 else Extent(parts, n - 1) + |parts[n - 1]|
  }

  lemma {:induction false} ConcatAppend(a: seq<string>, b: seq<string>)
    ensures Concat(a + b) == Concat(a) + Concat(b)
  {
    if |a| == 0 {
      assert a + b == b;
    } else {
      ConcatAppend(a[1..], b);
      assert (a + b)[1..] == a[1..] + b;
    }
  }

  lemma {:induction false} ConcatLength(parts: seq<string>, n: nat)
    requires n <= |parts|
    ensures |Concat(parts[..n])| == Extent(parts, n)
  {
    if n > 0 {
      ConcatLength(parts, n - 1);
      assert parts[..n] == parts[..n - 1] + [parts[n - 1]];
      ConcatAppend(parts[..n - 1], [parts[n - 1]]);
      assert Concat([parts[n - 1]]) == parts[n - 1] + Concat([]);
    }
  }

  /** Each part stands where the parts before it end, and nothing else is there. */
  lemma ConcatIs(parts: seq<string>, i: nat)
    requires i < |parts|
    ensures |Concat(parts)| == Extent(parts, |parts|)
    ensures Extent(parts, i) <= Extent(parts, i + 1) <= |Concat(parts)|
    ensures Concat(parts)[Extent(parts, i)..Extent(parts, i + 1)] == parts[i]
  {
    var before, behind := parts[..i], parts[i + 1..];
    ConcatLength(parts, |parts|);
    ConcatLength(parts, i);
    assert parts[..|parts|] == parts;
    assert parts == before + ([parts[i]] + behind) && ([parts[i]] + behind)[1..] == behind;
    ConcatAppend(before, [parts[i]] + behind);
    assert Concat(parts) == Concat(before) + (parts[i] + Concat(behind));
  }

  // ---- `separator.join(parts)` ----------------------------------------------------------

  /** Every part but the last with the separator behind it. */
  function Separated(separator: string, parts: seq<string>): seq<string> {
    seq(|parts|, i requires 0 <= i < |parts| => if i < |parts| - 1 then parts[i] + separator else parts[i])
  }

  lemma {:induction false} JoinWithIs(separator: string, parts: seq<string>)
    ensures JoinWith(separator, parts) == Concat(Separated(separator, parts))
  {
    if |parts| > 1 {
      JoinWithIs(separator, parts[1..]);
      assert Separated(separator, parts)[1..] == Separated(separator, parts[1..]);
    } else if |parts| == 1 {
      assert Separated(separator, parts)[1..] == [];
    }
  }

  // ---- `os.path.join` -------------------------------------------------------------------

  predicate Absolute(part: string) {
    part != "" && part[0] == '/'
  }

  /** A path that a part can be put behind: one that is not empty and does not end with a slash gets one. */
  function Opened(part: string): string {
    if part == "" || part[|part| - 1] == '/' then part else part + "/"
  }

  /** Every part but the last opened for the next one. */
  function Steps(parts: seq<string>): seq<string> {
    seq(|parts|, i requires 0 <= i < |parts| => if i < |parts| - 1 then Opened(parts[i]) else parts[i])
  }

  lemma StepsFirst(part: string, rest: seq<string>)
    requires |rest| > 0
    ensures Concat(Steps([part] + rest)) == Opened(part) + Concat(Steps(rest))
  {
    assert Steps([part] + rest)[1..] == Steps(rest);
  }

  lemma OpenedTwice(path: string, part: string)
    ensures Opened(Opened(path) + part) == Opened(path) + Opened(part)
  {
    if part != "" {
      assert (Opened(path) + part)[|Opened(path) + part| - 1] == part[|part| - 1];
    } else {
      assert Opened(path) + part == Opened(path);
    }
  }

  lemma OneStep(part: string)
    ensures Concat(Steps([part])) == part
  {
    assert Steps([part]) == [part] && [part][1..] == [];
  }

  lemma Regroup(a: string, b: string, c: string)
    ensures a + (b + c) == a + b + c
  {
  }

  /** Putting the first two parts together changes nothing. */
  lemma StepsTogether(path: string, part: string, rest: seq<string>)
    ensures Concat(Steps([path] + ([part] + rest))) == Concat(Steps([Opened(path) + part] + rest))
  {
    StepsFirst(path, [part] + rest);
    if |rest| > 0 {
      StepsFirst(part, rest);
      StepsFirst(Opened(path) + part, rest);
      OpenedTwice(path, part);
      Regroup(Opened(path), Opened(part), Concat(Steps(rest)));
    } else {
      assert [part] + rest == [part] && [Opened(path) + part] + rest == [Opened(path) + part];
      OneStep(part);
      OneStep(Opened(path) + part);
    }
  }

  lemma {:induction false} RelativeJoined(path: string, parts: seq<string>)
    requires forall i :: 0 <= i < |parts| ==> !Absolute(parts[i])
    ensures PathJoined(path, parts) == Concat(Steps([path] + parts))
    decreases |parts|
  {
    if |parts| == 0 {
      assert [path] + parts == [path];
      OneStep(path);
    } else {
      var rest := parts[1..];
      assert PathStep(path, parts[0]) == Opened(path) + parts[0];
      RelativeJoined(Opened(path) + parts[0], rest);
      assert parts == [parts[0]] + rest;
      StepsTogether(path, parts[0], rest);
    }
  }

  lemma {:induction false} AbsoluteDiscards(path: string, parts: seq<string>, i: nat)
    requires i < |parts| && Absolute(parts[i])
    ensures PathJoined(path, parts) == PathJoined(parts[i], parts[i + 1..])
    decreases i
  {
    if i > 0 {
      assert parts[1..][i - 1] == parts[i] && parts[1..][i..] == parts[i + 1..];
      AbsoluteDiscards(PathStep(path, parts[0]), parts[1..], i - 1);
    }
  }

  /**
   The join of any parts: the last absolute part discards everything before it,
   and from there on, or from the first part, the parts follow each other, with a
   slash behind each that is neither empty nor the last nor ends with one.
   */
  lemma PathJoinedIs(parts: seq<string>, k: nat)
    requires k < |parts| && (k == 0 || Absolute(parts[k]))
    requires forall i :: k < i < |parts| ==> !Absolute(parts[i])
    ensures PathJoined(parts[0], parts[1..]) == Concat(Steps(parts[k..]))
  {
    if k > 0 {
      AbsoluteDiscards(parts[0], parts[1..], k - 1);
      assert parts[1..][k - 1] == parts[k] && parts[1..][k..] == parts[k + 1..];
    }
    assert parts[k..] == [parts[k]] + parts[k + 1..];
    RelativeJoined(parts[k], parts[k + 1..]);
  }

  /** Plain parts are separated by single slashes. */
  lemma SingleSlashes(parts: seq<string>)
    requires |parts| > 0 && forall i :: 0 < i < |parts| ==> !Absolute(parts[i])
    requires forall i :: 0 <= i < |parts| - 1 ==> parts[i] != "" && parts[i][|parts[i]| - 1] != '/'
    ensures PathJoined(parts[0], parts[1..]) == JoinWith("/", parts)
  {
    PathJoinedIs(parts, 0);
    JoinWithIs("/", parts);
    assert parts[0..] == parts && Steps(parts) == Separated("/", parts);
  }
}
