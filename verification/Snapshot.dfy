/**
 The evidence snapshot: files staged for the release bundle under relative
 names, with bounded sizes and counts.
 */
module Snapshots {
  import opened Outcomes
  import opened Octets
  import opened Text

  // ---- names -------------------------------------------------------------------------------

  const MAX_FILE := 256 * 1024 * 1024
  const MAX_TOTAL := 1024 * 1024 * 1024
  const MAX_FILES := 512

  predicate ControlCharacter(c: char) {
    (c as int) < 32 || (c as int) == 127
  }

  predicate Unsafe(part: string) {
    part == "" || part == "." || part == ".."
  }

  /** `PurePosixPath(value).as_posix()` for a relative path: empty and `.` parts are dropped. */
  function KeptParts(parts: seq<string>): seq<string> {
    if |parts| == 0 then []
    else (if parts[0] == "" || parts[0] == "." then [] else [parts[0]]) + KeptParts(parts[1..])
  }

  function RelativeName(value: string): Result<string> {
    if value == "" || |value| > 512 then Err("Expected a bounded relative file path")
    else if value[0] == '/' || '\\' in value || (exists c :: c in value && ControlCharacter(c))
            || (exists part :: part in SplitOn(value, '/') && Unsafe(part)) then Err("Unsafe or escaping relative path")
    else Ok(Join('/', KeptParts(SplitOn(value, '/'))))
  }

  /** Where a path leads from a directory, segment by segment; `..` leaves the directory. */
  function Resolve(directory: seq<string>, parts: seq<string>): seq<string>
    decreases |parts|
  {
    if |parts| == 0 then directory
    else if parts[0] == "" || parts[0] == "." then Resolve(directory, parts[1..])
    else if parts[0] == ".." then Resolve(if directory == [] then [] else directory[..|directory| - 1], parts[1..])
    else Resolve(directory + [parts[0]], parts[1..])
  }

  // ---- the snapshot ----------------------------------------------------------------------------

  /** One archive member: what its manifest line says. */
  datatype Entry = Entry(name: string, sha: string, size: nat)

  datatype State = State(entries: seq<Entry>, total: nat, staged: map<string, Bytes>)

  const EMPTY := State([], 0, map[])

  predicate Has(entries: seq<Entry>, name: string) {
    exists e :: e in entries && e.name == name
  }

  /** `_reserve` does not raise. */
  predicate Fits(s: State, name: string, size: nat) {
    && RelativeName(name).Ok? && !Has(s.entries, name)
    && size <= MAX_FILE && s.total + size <= MAX_TOTAL && |s.entries| < MAX_FILES
  }

  function Added(s: State, name: string, sha: string, size: nat): State {
    State(s.entries + [Entry(name, sha, size)], s.total + size, s.staged)
  }

  datatype FileStat = FileStat(size: nat, modified: int, inode: int)

  /** What the copied file turns out to be: `fault` is the chunk whose read or write raises. */
  datatype Source = Source(checked: bool, circular: bool, size: nat, opens: bool, regular: bool, before: FileStat,
                           chunks: seq<Bytes>, fault: Option<nat>, after: FileStat, stillChecked: bool)

  /** One call: a document built here (whose write may raise, leaving something) or a file of the tree. */
  datatype Call =
    | Document(name: string, data: Bytes, raises: Option<Option<Bytes>>)
    | File(name: string, source: Source, digest: Option<string>)

  /** The copy loop from chunk `i`: what has been written, and whether the loop ended without raising. */
  function CopyFrom(source: Source, i: nat, written: Bytes): (Bytes, bool)
    requires i <= |source.chunks|
    decreases |source.chunks| - i
  {
    if source.fault == Some(i) then (written, false)
    else if i == |source.chunks| || source.chunks[i] == [] then (written, true)
    else if |written + source.chunks[i]| > source.size then (written + source.chunks[i], false)
    else CopyFrom(source, i + 1, written + source.chunks[i])
  }

  predicate Hex(c: char) {
    '0' <= c <= '9' || 'a' <= c <= 'f' || 'A' <= c <= 'F'
  }

  function Lower(s: string): string {
    if s == "" then "" else [if 'A' <= s[0] <= 'Z' then s[0] - 'A' + 'a' else s[0]] + Lower(s[1..])
  }

  /** `digest is None or actual == expected_hash(digest)`; a malformed digest raises. */
  predicate DigestAccepted(digest: Option<string>, actual: string) {
    match digest
    case None => true
    case Some(d) => |d| == 64 && (forall i :: 0 <= i < 64 ==> Hex(d[i])) && actual == Lower(d)
  }

  /** The copy is trusted: the file held still, and the digest is the approved one. */
  predicate Trusted(hash: Bytes -> string, source: Source, digest: Option<string>, copied: Bytes) {
    && source.before == source.after && source.stillChecked && |copied| == source.size
    && DigestAccepted(digest, hash(copied))
  }

  /** The copy, and the entry when it can be trusted. */
  function Taken(hash: Bytes -> string, s: State, name: string, source: Source, digest: Option<string>): (State, bool) {
    var (copied, ended) := CopyFrom(source, 0, []);
    var left := s.(staged := s.staged[name := copied]);
    if ended && Trusted(hash, source, digest, copied) then (Added(left, name, hash(copied), source.size), true)
    else (left, false)
  }

  /** Whether the file was empty or not there before the copy makes no difference. */
  lemma TakenAnew(hash: Bytes -> string, s: State, name: string, source: Source, digest: Option<string>)
    ensures Taken(hash, s.(staged := s.staged[name := []]), name, source, digest)
      == Taken(hash, s, name, source, digest)
  {
    var copied := CopyFrom(source, 0, []).0;
    assert s.staged[name := []][name := copied] == s.staged[name := copied];
  }

  function AfterCall(hash: Bytes -> string, s: State, c: Call): (State, bool) {
    match c
    case Document(name, data, raises) =>
      if !Fits(s, name, |data|) then (s, false)
      else if raises.Some? then
        (if raises.value.None? then s else s.(staged := s.staged[name := raises.value.value]), false)
      else (Added(s.(staged := s.staged[name := data]), name, hash(data), |data|), true)
    case File(name, source, digest) =>
      if !source.checked || source.circular || !Fits(s, name, source.size) || !source.opens then (s, false)
      else if !source.regular || source.before.size != source.size then (s.(staged := s.staged[name := []]), false)
      else Taken(hash, s, name, source, digest)
  }

  class Snapshot {
    const hash: Bytes -> string
    var entries: seq<Entry>
    var total: nat
    var staged: map<string, Bytes>

    constructor (hash: Bytes -> string)
      ensures this.hash == hash && Current() == EMPTY
    {
      this.hash := hash;
      entries, total, staged := [], 0, map[];
    }

    function Current(): State
      reads this
    {
      State(entries, total, staged)
    }

    method Reserve(name: string, size: nat) returns (raised: bool)
      ensures raised <==> !Fits(Current(), name, size)
    {
      if RelativeName(name).Err? {
        return true;
      }
      if exists e :: e in entries && e.name == name {
        return true;
      }
      return size > MAX_FILE || total + size > MAX_TOTAL || |entries| >= MAX_FILES;
    }

    method AddBytes(name: string, data: Bytes, raises: Option<Option<Bytes>>) returns (accepted: bool)
      modifies this
      ensures (Current(), accepted) == AfterCall(hash, old(Current()), Document(name, data, raises))
    {
      var raised := Reserve(name, |data|);
      if raised {
        return false;
      }
      if raises.Some? {
        if raises.value.Some? {
          staged := staged[name := raises.value.value];
        }
        return false;
      }
      staged := staged[name := data];
      entries := entries + [Entry(name, hash(data), |data|)];
      total := total + |data|;
      return true;
    }

    method AddFile(name: string, source: Source, digest: Option<string>) returns (accepted: bool)
      modifies this
      ensures (Current(), accepted) == AfterCall(hash, old(Current()), File(name, source, digest))
    {
      if !source.checked || source.circular {
        return false;
      }
      var raised := Reserve(name, source.size);
      if raised || !source.opens {
        return false;
      }
      staged := staged[name := []];
      if !source.regular || source.before.size != source.size {
        return false;
      }
      accepted := Take(name, source, digest);
      TakenAnew(hash, old(Current()), name, source, digest);
    }

    /** Fills the staged file, and enters it when the copy can be trusted. */
    method Take(name: string, source: Source, digest: Option<string>) returns (accepted: bool)
      requires name in staged && staged[name] == []
      modifies this
      ensures (Current(), accepted) == Taken(hash, old(Current()), name, source, digest)
    {
      var ended := Copy(name, source);
      if !ended {
        return false;
      }
      var copied := staged[name];
      if source.before != source.after || !source.stillChecked || |copied| != source.size {
        return false;
      }
      if !DigestAccepted(digest, hash(copied)) {
        return false;
      }
      entries := entries + [Entry(name, hash(copied), source.size)];
      total := total + source.size;
      return true;
    }

    method Copy(name: string, source: Source) returns (ended: bool)
      requires name in staged && staged[name] == []
      modifies this`staged
      ensures staged == old(staged)[name := CopyFrom(source, 0, []).0] && ended == CopyFrom(source, 0, []).1
    {
      var i := 0;
      while source.fault != Some(i) && i < |source.chunks| && source.chunks[i] != []
        invariant i <= |source.chunks| && name in staged && staged == old(staged)[name := staged[name]]
        invariant CopyFrom(source, 0, []) == CopyFrom(source, i, staged[name])
        decreases |source.chunks| - i
      {
        staged := staged[name := staged[name] + source.chunks[i]];
        if |staged[name]| > source.size {
          return false;
        }
        i := i + 1;
      }
      return source.fault != Some(i);
    }
  }

  // ---- what a snapshot keeps ----------------------------------------------------------------------

  function Sizes(entries: seq<Entry>): nat {
    if |entries| == 0 then 0 else Sizes(entries[..|entries| - 1]) + entries[|entries| - 1].size
  }

  /** The manifest line describes the staged file. */
  predicate Describes(hash: Bytes -> string, s: State, e: Entry) {
    e.name in s.staged && e.sha == hash(s.staged[e.name]) && e.size == |s.staged[e.name]|
  }

  /** The manifest line is within the bounds of one file, and is right. */
  predicate Vouched(hash: Bytes -> string, s: State, e: Entry) {
    Describes(hash, s, e) && e.size <= MAX_FILE && RelativeName(e.name).Ok?
  }

  predicate AllVouched(hash: Bytes -> string, s: State) {
    forall e :: e in s.entries ==> Vouched(hash, s, e)
  }

  predicate DistinctNames(entries: seq<Entry>) {
    forall i, j :: 0 <= i < j < |entries| ==> entries[i].name != entries[j].name
  }

  predicate Sound(hash: Bytes -> string, s: State) {
    s.total == Sizes(s.entries) <= MAX_TOTAL && |s.entries| <= MAX_FILES && DistinctNames(s.entries)
        && AllVouched(hash, s)
  }

  /** A staged write under a name with no entry disturbs no entry. */
  lemma StagingIsSafe(hash: Bytes -> string, s: State, name: string, data: Bytes)
    requires Sound(hash, s) && !Has(s.entries, name)
    ensures Sound(hash, s.(staged := s.staged[name := data]))
  {
  }

  lemma NamesGrow(entries: seq<Entry>, e: Entry)
    requires DistinctNames(entries) && !Has(entries, e.name)
    ensures DistinctNames(entries + [e])
  {
    assert forall i :: 0 <= i < |entries| ==> entries[i] in entries;
  }

  lemma SizesGrow(entries: seq<Entry>, e: Entry)
    ensures Sizes(entries + [e]) == Sizes(entries) + e.size
  {
    assert (entries + [e])[..|entries|] == entries;
  }

  lemma VouchedGrow(hash: Bytes -> string, s: State, e: Entry, more: State)
    requires AllVouched(hash, s) && Vouched(hash, s, e) && more.entries == s.entries + [e] && more.staged == s.staged
    ensures AllVouched(hash, more)
  {
  }

  lemma AddingIsSound(hash: Bytes -> string, s: State, name: string)
    requires Sound(hash, s) && name in s.staged && Fits(s, name, |s.staged[name]|)
    ensures Sound(hash, Added(s, name, hash(s.staged[name]), |s.staged[name]|))
  {
    var e := Entry(name, hash(s.staged[name]), |s.staged[name]|);
    NamesGrow(s.entries, e);
    SizesGrow(s.entries, e);
    VouchedGrow(hash, s, e, Added(s, name, e.sha, e.size));
  }

  /** One call, accepted or refused, keeps the snapshot sound; earlier entries and their files stay as they were. */
  lemma CallKeepsSound(hash: Bytes -> string, s: State, c: Call)
    requires Sound(hash, s)
    ensures Sound(hash, AfterCall(hash, s, c).0)
  {
    match c
    case Document(name, data, raises) =>
      if Fits(s, name, |data|) {
        StagingIsSafe(hash, s, name, if raises.Some? && raises.value.Some? then raises.value.value else data);
        if raises.None? {
          AddingIsSound(hash, s.(staged := s.staged[name := data]), name);
        }
      }
    case File(name, source, digest) =>
      if Fits(s, name, source.size) {
        var (copied, ended) := CopyFrom(source, 0, []);
        StagingIsSafe(hash, s, name, []);
        StagingIsSafe(hash, s, name, copied);
        if |copied| == source.size {
          AddingIsSound(hash, s.(staged := s.staged[name := copied]), name);
        }
      }
  }

  function AfterCalls(hash: Bytes -> string, s: State, calls: seq<Call>): State
    decreases |calls|
  {
    if |calls| == 0 then s else AfterCalls(hash, AfterCall(hash, s, calls[0]).0, calls[1..])
  }

  /**
   After any sequence of calls, whatever the disk and the source files do: the
   total is the sum of the sizes, the bounds hold, names are relative and
   distinct, and every entry's size and digest are those of its staged file.
   */
  lemma {:induction false} SnapshotsAreSound(hash: Bytes -> string, s: State, calls: seq<Call>)
    requires Sound(hash, s)
    ensures Sound(hash, AfterCalls(hash, s, calls))
    ensures s.entries <= AfterCalls(hash, s, calls).entries
    ensures forall e :: e in s.entries ==>
      e.name in s.staged && e.name in AfterCalls(hash, s, calls).staged
          && AfterCalls(hash, s, calls).staged[e.name] == s.staged[e.name]
    decreases |calls|
  {
    if |calls| > 0 {
      var next := AfterCall(hash, s, calls[0]).0;
      CallKeepsSound(hash, s, calls[0]);
      EntriesStay(hash, s, calls[0]);
      SnapshotsAreSound(hash, next, calls[1..]);
    }
  }

  lemma EntriesStay(hash: Bytes -> string, s: State, c: Call)
    requires Sound(hash, s)
    ensures s.entries <= AfterCall(hash, s, c).0.entries
    ensures forall e :: e in s.entries ==>
      && e.name in s.staged && e.name in AfterCall(hash, s, c).0.staged
      && AfterCall(hash, s, c).0.staged[e.name] == s.staged[e.name]
  {
  }

  /** The chunks a copy reads: up to the first empty one. */
  function Read(chunks: seq<Bytes>): seq<Bytes> {
    if |chunks| == 0 || chunks[0] == [] then [] else [chunks[0]] + Read(chunks[1..])
  }

  lemma {:induction false} CopyIsExact(source: Source, i: nat, written: Bytes)
    requires i <= |source.chunks| && CopyFrom(source, i, written).1
    ensures CopyFrom(source, i, written).0 == written + Flat(Read(source.chunks[i..]))
    decreases |source.chunks| - i
  {
    if i < |source.chunks| && source.chunks[i] != [] {
      CopyIsExact(source, i + 1, written + source.chunks[i]);
      var rest := Read(source.chunks[i + 1..]);
      assert source.chunks[i..][1..] == source.chunks[i + 1..];
      assert ([source.chunks[i]] + rest)[1..] == rest;
      assert written + (source.chunks[i] + Flat(rest)) == written + source.chunks[i] + Flat(rest);
    }
  }

  /** An accepted file is staged whole: exactly the bytes read, as many as its size said, with the approved digest. */
  lemma AcceptedFileIsWhole(hash: Bytes -> string, s: State, name: string, source: Source, digest: Option<string>)
    requires AfterCall(hash, s, File(name, source, digest)).1
    ensures var after, bytes := AfterCall(hash, s, File(name, source, digest)).0, Flat(Read(source.chunks));
      && after.staged == s.staged[name := bytes] && |bytes| == source.size
      && after.entries == s.entries + [Entry(name, hash(bytes), |bytes|)]
      && source.before == source.after && (digest.Some? ==> hash(bytes) == Lower(digest.value))
  {
    CopyIsExact(source, 0, []);
    assert source.chunks[0..] == source.chunks;
    assert [] + Flat(Read(source.chunks)) == Flat(Read(source.chunks));
  }

  // ---- names stay inside ------------------------------------------------------------------------------

  lemma {:induction false} SafeParts(parts: seq<string>, directory: seq<string>)
    requires forall part :: part in parts ==> !Unsafe(part)
    ensures KeptParts(parts) == parts && Resolve(directory, parts) == directory + parts
  {
    assert |parts| > 0 ==> !Unsafe(parts[0]) && parts == [parts[0]] + parts[1..];
    if |parts| == 0 {
      assert directory + parts == directory;
    } else {
      SafeParts(parts[1..], directory + [parts[0]]);
      assert directory + [parts[0]] + parts[1..] == directory + parts;
    }
  }

  lemma {:induction false} JoinSplit(s: string, c: char)
    ensures Join(c, SplitOn(s, c)) == s
    decreases |s|
  {
    var n := IndexOf(s, c);
    if n < |s| {
      JoinSplit(s[n + 1..], c);
      var rest := SplitOn(s[n + 1..], c);
      assert SplitOn(s, c) == [s[..n]] + rest && ([s[..n]] + rest)[1..] == rest;
      assert s == s[..n] + [c] + s[n + 1..];
    }
  }

  /**
   An accepted name is its own normal form, and leads strictly below the
   directory it is resolved in, one level for each segment, at every segment.
   */
  lemma NamesStayInside(value: string, directory: seq<string>, k: nat)
    requires RelativeName(value).Ok? && k <= |SplitOn(value, '/')|
    ensures RelativeName(value).value == value
    ensures Resolve(directory, SplitOn(value, '/')[..k]) == directory + SplitOn(value, '/')[..k]
    ensures directory < Resolve(directory, SplitOn(value, '/'))
  {
    var parts := SplitOn(value, '/');
    SafeParts(parts, directory);
    SafeParts(parts[..k], directory);
    JoinSplit(value, '/');
  }

  /** Different accepted names lead to different places. */
  lemma NamesDoNotAlias(a: string, b: string, directory: seq<string>)
    requires RelativeName(a).Ok? && RelativeName(b).Ok?
    ensures Resolve(directory, SplitOn(a, '/')) == Resolve(directory, SplitOn(b, '/')) <==> a == b
  {
    NamesStayInside(a, directory, 0);
    NamesStayInside(b, directory, 0);
    SafeParts(SplitOn(a, '/'), directory);
    SafeParts(SplitOn(b, '/'), directory);
    assert (directory + SplitOn(a, '/'))[|directory|..] == SplitOn(a, '/');
    assert (directory + SplitOn(b, '/'))[|directory|..] == SplitOn(b, '/');
    JoinSplit(a, '/');
    JoinSplit(b, '/');
  }

  // ---- what is accepted ------------------------------------------------------------------------------

  /** A path segment an archive may hold. */
  predicate SafeSegment(part: string) {
    part !in {"", ".", ".."} && forall c :: c in part ==> c != '/' && c != '\\' && 32 <= c as int && c as int != 127
  }

  predicate SafeName(value: string, parts: seq<string>) {
    |value| <= 512 && |parts| > 0 && value == Join('/', parts) && forall part :: part in parts ==> SafeSegment(part)
  }

  lemma SplitIsSafe(value: string)
    requires RelativeName(value).Ok?
    ensures SafeName(value, SplitOn(value, '/'))
  {
    JoinSplit(value, '/');
    PiecesHoldNone(value, '/');
    forall part | part in SplitOn(value, '/')
      ensures SafeSegment(part)
    {
      assert !Unsafe(part);
      assert forall c :: c in part ==> c in value && !ControlCharacter(c);
    }
  }

  lemma SafeIsAccepted(value: string, parts: seq<string>)
    requires SafeName(value, parts)
    ensures RelativeName(value) == Ok(value)
  {
    SplitJoin(parts, '/');
    SafeParts(parts, []);
    assert parts[0] in parts && parts[0] != "";
    assert value != "" && value[0] == parts[0][0] && parts[0][0] in parts[0];
    forall c | c in value
      ensures c != '\\' && !ControlCharacter(c)
    {
      JoinHolds(parts, '/', c);
    }
  }

  /** A name is accepted, as it stands, exactly when it is one or more safe segments joined by slashes. */
  lemma NameAcceptedIff(value: string)
    ensures RelativeName(value).Ok? <==> exists parts :: SafeName(value, parts)
    ensures RelativeName(value).Ok? ==> RelativeName(value).value == value
  {
    if RelativeName(value).Ok? {
      SplitIsSafe(value);
      SafeIsAccepted(value, SplitOn(value, '/'));
    }
    if parts :| SafeName(value, parts) {
      SafeIsAccepted(value, parts);
    }
  }

  /** The bounds of the snapshot: 256 MiB a file, 1 GiB and 512 files in all; no name twice. */
  predicate HasRoom(s: State, name: string, size: nat) {
    && (forall e :: e in s.entries ==> e.name != name) && |s.entries| < 512
    && size <= 268_435_456 && s.total + size <= 1_073_741_824
  }

  lemma {:induction false} LowerIs(d: string, i: nat)
    requires i < |d|
    ensures |Lower(d)| == |d| && Lower(d)[i] == if 'A' <= d[i] <= 'Z' then d[i] - 'A' + 'a' else d[i]
  {
    if i > 0 {
      LowerIs(d[1..], i - 1);
    } else if |d| > 1 {
      LowerIs(d[1..], 0);
    }
  }

  /** The copy ends well exactly when no read up to the end raises and no byte too many arrives. */
  lemma {:induction false} CopyEndsIff(source: Source, i: nat, written: Bytes)
    requires i <= |source.chunks|
    ensures var bytes := Read(source.chunks[i..]);
      CopyFrom(source, i, written).1 <==>
        && (source.fault.Some? ==> source.fault.value < i || source.fault.value > i + |bytes|)
        && (bytes == [] || |written| + |Flat(bytes)| <= source.size)
    decreases |source.chunks| - i
  {
    if i < |source.chunks| && source.chunks[i] != [] {
      var next := written + source.chunks[i];
      var rest := Read(source.chunks[i + 1..]);
      CopyEndsIff(source, i + 1, next);
      assert source.chunks[i..][1..] == source.chunks[i + 1..];
      assert Read(source.chunks[i..]) == [source.chunks[i]] + rest && ([source.chunks[i]] + rest)[1..] == rest;
      assert |Flat(Read(source.chunks[i..]))| == |source.chunks[i]| + |Flat(rest)|;
    }
  }

  /** The file can be opened, is a regular file, and is the same before and after the copy. */
  predicate HeldStill(source: Source) {
    && source.checked && !source.circular && source.opens && source.regular && source.stillChecked
    && source.before.size == source.size && source.before == source.after
  }

  /** No digest was given, or it is 64 hexadecimal digits that are the bytes' digest in lower case. */
  predicate Approved(digest: Option<string>, actual: string) {
    digest.Some? ==>
      && |digest.value| == 64 && actual == Lower(digest.value)
      && forall i :: 0 <= i < 64 ==>
           '0' <= digest.value[i] <= '9' || 'a' <= digest.value[i] <= 'f' || 'A' <= digest.value[i] <= 'F'
  }

  lemma FitsIff(s: State, name: string, size: nat)
    ensures Fits(s, name, size) <==> RelativeName(name).Ok? && HasRoom(s, name, size)
  {
  }

  lemma ApprovedIff(digest: Option<string>, actual: string)
    ensures DigestAccepted(digest, actual) <==> Approved(digest, actual)
  {
  }

  lemma TakenIff(hash: Bytes -> string, s: State, name: string, source: Source, digest: Option<string>)
    ensures var bytes := Flat(Read(source.chunks));
      Taken(hash, s, name, source, digest).1 <==>
        && (source.fault.Some? ==> source.fault.value > |Read(source.chunks)|)
        && |bytes| == source.size && source.before == source.after && source.stillChecked
        && Approved(digest, hash(bytes))
  {
    var bytes := Flat(Read(source.chunks));
    assert source.chunks[0..] == source.chunks && [] + bytes == bytes;
    CopyEndsIff(source, 0, []);
    ApprovedIff(digest, hash(bytes));
    if CopyFrom(source, 0, []).1 {
      CopyIsExact(source, 0, []);
    }
  }

  /** Exactly when a file of the tree is accepted. */
  lemma FileAcceptedIff(hash: Bytes -> string, s: State, name: string, source: Source, digest: Option<string>)
    ensures var bytes := Flat(Read(source.chunks));
      AfterCall(hash, s, File(name, source, digest)).1 <==>
        && RelativeName(name).Ok? && HasRoom(s, name, source.size) && HeldStill(source)
        && (source.fault.Some? ==> source.fault.value > |Read(source.chunks)|)
        && |bytes| == source.size && Approved(digest, hash(bytes))
  {
    FitsIff(s, name, source.size);
    TakenIff(hash, s, name, source, digest);
  }

  /** Exactly when a document built here is accepted. */
  lemma DocumentAcceptedIff(hash: Bytes -> string, s: State, name: string, data: Bytes, raises: Option<Option<Bytes>>)
    ensures AfterCall(hash, s, Document(name, data, raises)).1 <==>
      RelativeName(name).Ok? && HasRoom(s, name, |data|) && raises.None?
  {
    FitsIff(s, name, |data|);
  }
}
