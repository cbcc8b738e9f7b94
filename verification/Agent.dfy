/**
 The guest-agent client: newline-framed JSON over a stream socket, with a resync
 token.  Bytes arrive in chunks of any size; `buffer` keeps what was received and
 not consumed yet.
 */
module Agent {
  import opened Octets
  import opened Json

  const NEWLINE: Byte := 10
  const RESYNC: Byte := 0xFF

  /** What `json.loads` makes of a line. */
  datatype Reply =
    | NotJson                                       // JSONDecodeError
    | BadEncoding                                   // UnicodeDecodeError
    | Object(event: bool, error: bool, result: Value)  // result is null when there is no "return"
    | NonObject(mentionsEvent: bool)                // a list or string; `in` still works on it

  type Parser = Bytes -> Reply

  /** `buffer.find(b"\n")`; the length when there is none. */
  function FindNewline(s: Bytes): (n: nat)
    ensures n <= |s|
    ensures n < |s| ==> s[n] == NEWLINE
    ensures forall i :: 0 <= i < n ==> s[i] != NEWLINE
  {
    if |s| == 0 || s[0] == NEWLINE then 0 else 1 + FindNewline(s[1..])
  }

  /** `lstrip(b"\xff")`. */
  function Stripped(s: Bytes): Bytes {
    if |s| > 0 && s[0] == RESYNC then Stripped(s[1..]) else s
  }

  datatype Ending = Synced | Returned(v: Value) | AgentError | Closed | Crashed | TimedOut

  /** What a loop does with one line: goes on, or ends. */
  datatype Step = Skip | Stop(ending: Ending)

  function SyncStep(parse: Parser, token: int, line: Bytes): Step {
    if |line| == 0 then Skip
    else
      match parse(line)
      case NotJson => Skip
      case BadEncoding => Stop(Crashed)
      case NonObject(_) => Stop(Crashed)
      case Object(_, _, result) => if result == Int(token) then Stop(Synced) else Skip
  }

  function RpcStep(parse: Parser, line: Bytes): Step {
    if |line| == 0 then Skip
    else
      match parse(line)
      case NotJson => Stop(Crashed)
      case BadEncoding => Stop(Crashed)
      case NonObject(mentionsEvent) => if mentionsEvent then Skip else Stop(Crashed)
      case Object(event, error, result) =>
        if event then Skip else if error then Stop(AgentError) else Stop(Returned(result))
  }

  /** The outcome on a whole stream, and what is left behind the line that decided it. */
  function Consume(step: Bytes -> Step, stream: Bytes): (Ending, Bytes)
    decreases |stream|
  {
    var n := FindNewline(stream);
    if n == |stream| then (Closed, stream)
    else
      match step(Stripped(stream[..n]))
      case Skip => Consume(step, stream[n + 1..])
      case Stop(ending) => (ending, stream[n + 1..])
  }

  function Newlines(s: Bytes): nat {
    if |s| == 0 then 0 else (if s[0] == NEWLINE then 1 else 0) + Newlines(s[1..])
  }

  lemma {:induction false} NewlinesSplit(s: Bytes, n: nat)
    requires n < |s| && s[n] == NEWLINE && forall i :: 0 <= i < n ==> s[i] != NEWLINE
    ensures Newlines(s) == 1 + Newlines(s[n + 1..])
  {
    if n > 0 {
      assert s[1..][n - 1 + 1..] == s[n + 1..];
      NewlinesSplit(s[1..], n - 1);
    }
  }

  lemma {:induction false} FindInFront(s: Bytes, more: Bytes)
    requires FindNewline(s) < |s|
    ensures FindNewline(s + more) == FindNewline(s)
  {
    assert (s + more)[0] == s[0];
    if s[0] != NEWLINE {
      assert (s + more)[1..] == s[1..] + more;
      FindInFront(s[1..], more);
    }
  }

  /** A complete line at the front of the buffer is the first line of the whole stream. */
  lemma FrontLine(step: Bytes -> Step, buffer: Bytes, more: Bytes)
    requires FindNewline(buffer) < |buffer|
    ensures var n := FindNewline(buffer);
      && Newlines(buffer + more) == 1 + Newlines(buffer[n + 1..] + more)
      && Consume(step, buffer + more) == match step(Stripped(buffer[..n]))
                                         case Skip => Consume(step, buffer[n + 1..] + more)
                                         case Stop(ending) => (ending, buffer[n + 1..] + more)
  {
    var n, all := FindNewline(buffer), buffer + more;
    FindInFront(buffer, more);
    assert all[..n] == buffer[..n] && all[n + 1..] == buffer[n + 1..] + more;
    NewlinesSplit(all, n);
  }

  // ---- the client ---------------------------------------------------------------

  class Channel {
    const parse: Parser
    var buffer: Bytes
    var chunks: seq<Bytes>     // what each further `recv` returns; then the peer has closed
    var sent: seq<Bytes>

    constructor (parse: Parser, chunks: seq<Bytes>)
      ensures this.parse == parse && this.chunks == chunks && buffer == [] && sent == []
    {
      this.parse := parse;
      this.chunks := chunks;
      buffer, sent := [], [];
    }

    /** Everything received or still to be received, and not consumed. */
    function Pending(): Bytes
      reads this
    {
      buffer + Flat(chunks)
    }

    /** One `recv` into the buffer; an empty result means the connection is closed. */
    method Receive() returns (closed: bool)
      modifies `buffer, `chunks
      ensures closed <==> |old(chunks)| == 0
      ensures closed ==> buffer == old(buffer) && chunks == old(chunks)
      ensures !closed ==> |chunks| == |old(chunks)| - 1
      ensures Pending() == old(Pending())
    {
      if |chunks| == 0 {
        return true;
      }
      assert buffer + (chunks[0] + Flat(chunks[1..])) == buffer + chunks[0] + Flat(chunks[1..]);
      buffer, chunks := buffer + chunks[0], chunks[1..];
      return false;
    }

    /** `deadline` bounds the iterations in place of the clock. */
    method Sync(token: int, request: Bytes, deadline: nat) returns (ending: Ending)
      modifies this
      ensures sent == old(sent) + [[RESYNC] + request + [NEWLINE]]
      ensures ending != TimedOut ==>
        (ending, Pending()) == Consume(line => SyncStep(parse, token, line), old(Pending()))
      ensures ending == TimedOut ==>
        Consume(line => SyncStep(parse, token, line), Pending())
            == Consume(line => SyncStep(parse, token, line), old(Pending()))
      ensures deadline > |old(chunks)| + Newlines(old(Pending())) ==> ending != TimedOut
    {
      sent := sent + [[RESYNC] + request + [NEWLINE]];
      ghost var step := (line: Bytes) => SyncStep(parse, token, line);
      var left := deadline;
      while left > 0
        invariant sent == old(sent) + [[RESYNC] + request + [NEWLINE]]
        invariant Consume(step, Pending()) == Consume(step, old(Pending()))
        invariant left + |old(chunks)| + Newlines(old(Pending())) >= deadline + |chunks| + Newlines(Pending())
      {
        left := left - 1;
        var newline := FindNewline(buffer);
        if newline == |buffer| {
          var closed := Receive();
          if closed {
            assert Pending() == buffer;
            return Closed;
          }
        } else {
          FrontLine(step, buffer, Flat(chunks));
          var raw := Stripped(buffer[..newline]);
          buffer := buffer[newline + 1..];
          match SyncStep(parse, token, raw)
          case Skip =>
          case Stop(end) => return end;
        }
      }
      return TimedOut;
    }

    method Rpc(request: Bytes) returns (ending: Ending)
      modifies this
      ensures sent == old(sent) + [request + [NEWLINE]]
      ensures ending != TimedOut
      ensures (ending, Pending()) == Consume(line => RpcStep(parse, line), old(Pending()))
    {
      sent := sent + [request + [NEWLINE]];
      ghost var step := (line: Bytes) => RpcStep(parse, line);
      while true
        invariant sent == old(sent) + [request + [NEWLINE]]
        invariant Consume(step, Pending()) == Consume(step, old(Pending()))
        decreases |Pending()|, |chunks|
      {
        var newline := FindNewline(buffer);
        if newline < |buffer| {
          FrontLine(step, buffer, Flat(chunks));
          var raw := Stripped(buffer[..newline]);
          buffer := buffer[newline + 1..];
          match RpcStep(parse, raw)
          case Skip =>
          case Stop(end) => return end;
        } else {
          var closed := Receive();
          if closed {
            assert Pending() == buffer;
            return Closed;
          }
        }
      }
    }

    /** The start of `execute`: resynchronise, then ask.  The outcome is a function of the bytes alone. */
    method SyncThenRpc(token: int, hello: Bytes, request: Bytes, deadline: nat) returns (ending: Ending)
      requires deadline > |chunks| + Newlines(Pending())
      modifies this
      ensures (ending, Pending()) == Conversation(parse, token, old(Pending()))
    {
      ending := Sync(token, hello, deadline);
      if ending == Synced {
        ending := Rpc(request);
      }
    }
  }

  /** What a synchronised call makes of a stream, however it is cut into chunks. */
  function Conversation(parse: Parser, token: int, stream: Bytes): (Ending, Bytes) {
    var (ending, rest) := Consume(line => SyncStep(parse, token, line), stream);
    if ending == Synced then Consume(line => RpcStep(parse, line), rest) else (ending, rest)
  }

  // ---- lines -------------------------------------------------------------------------

  /** The complete lines of a stream, and the bytes behind the last newline. */
  function LinesOf(stream: Bytes): seq<Bytes>
    decreases |stream|
  {
    var n := FindNewline(stream);
    if n == |stream| then [] else [stream[..n]] + LinesOf(stream[n + 1..])
  }

  function TailOf(stream: Bytes): Bytes
    decreases |stream|
  {
    var n := FindNewline(stream);
    if n == |stream| then stream else TailOf(stream[n + 1..])
  }

  function Rejoined(lines: seq<Bytes>, tail: Bytes): Bytes {
    if |lines| == 0 then tail else lines[0] + [NEWLINE] + Rejoined(lines[1..], tail)
  }

  lemma SplitAtNewline(stream: Bytes, n: nat)
    requires n < |stream| && stream[n] == NEWLINE
    ensures stream[..n] + [NEWLINE] + stream[n + 1..] == stream
  {
  }

  lemma RejoinedFirst(line: Bytes, lines: seq<Bytes>, tail: Bytes)
    ensures Rejoined([line] + lines, tail) == line + [NEWLINE] + Rejoined(lines, tail)
  {
    assert ([line] + lines)[1..] == lines;
  }

  lemma {:induction false} LinesRejoin(stream: Bytes)
    ensures Rejoined(LinesOf(stream), TailOf(stream)) == stream
    decreases |stream|
  {
    var n := FindNewline(stream);
    if n < |stream| {
      LinesRejoin(stream[n + 1..]);
      RejoinedFirst(stream[..n], LinesOf(stream[n + 1..]), TailOf(stream));
      SplitAtNewline(stream, n);
    }
  }

  /** The first line that is not skipped; the number of lines when all are. */
  function Deciding(step: Bytes -> Step, lines: seq<Bytes>): (k: nat)
    ensures k <= |lines|
    ensures forall i :: 0 <= i < k ==> step(Stripped(lines[i])) == Skip
    ensures k < |lines| ==> step(Stripped(lines[k])).Stop?
  {
    if |lines| == 0 || step(Stripped(lines[0])).Stop? then 0 else 1 + Deciding(step, lines[1..])
  }

  /**
   A loop skips exactly the lines before the first deciding one, and what it
   leaves is everything behind that line: no byte lost, none taken twice.
   */
  lemma {:induction false} ConsumeIsExact(step: Bytes -> Step, stream: Bytes)
    ensures var lines, tail, k := LinesOf(stream), TailOf(stream), Deciding(step, LinesOf(stream));
      Consume(step, stream) ==
        if k == |lines| then (Closed, tail) else (step(Stripped(lines[k])).ending, Rejoined(lines[k + 1..], tail))
    decreases |stream|
  {
    var n := FindNewline(stream);
    if n < |stream| {
      var rest := stream[n + 1..];
      assert LinesOf(stream)[1..] == LinesOf(rest);
      LinesRejoin(rest);
      if step(Stripped(stream[..n])) == Skip {
        ConsumeIsExact(step, rest);
        var k := Deciding(step, LinesOf(rest));
        assert k < |LinesOf(rest)| ==> LinesOf(stream)[k + 2..] == LinesOf(rest)[k + 1..];
      }
    }
  }

  /**
   A synchronised call on a stream whose first token reply is line `k`: lines
   up to `k` are discarded whatever they hold, and the answer comes from the first
   later line that is not an event.
   */
  lemma StaleLinesAreDiscarded(parse: Parser, token: int, stream: Bytes, k: nat)
    requires k < |LinesOf(stream)|
    requires Deciding(line => SyncStep(parse, token, line), LinesOf(stream)) == k
    requires SyncStep(parse, token, Stripped(LinesOf(stream)[k])) == Stop(Synced)
    ensures Conversation(parse, token, stream)
         == Consume(line => RpcStep(parse, line), Rejoined(LinesOf(stream)[k + 1..], TailOf(stream)))
  {
    ConsumeIsExact(line => SyncStep(parse, token, line), stream);
  }

  // ---- what a call answers, by what the parser makes of the lines ---------------------------

  /** A line without its resync bytes in front. */
  lemma {:induction false} StrippedIs(line: Bytes) returns (n: nat)
    ensures n <= |line| && (forall i :: 0 <= i < n ==> line[i] == 0xFF) && Stripped(line) == line[n..]
    ensures Stripped(line) == [] || Stripped(line)[0] != 0xFF
  {
    n := 0;
    if |line| > 0 && line[0] == RESYNC {
      var m := StrippedIs(line[1..]);
      n := m + 1;
      assert forall i :: 0 < i < n ==> line[i] == line[1..][i - 1];
    }
  }

  /** What a resynchronisation passes over: an empty line, no JSON, or an object with another result. */
  predicate Stale(parse: Parser, token: int, line: Bytes) {
    line == [] || parse(line).NotJson? || (parse(line).Object? && parse(line).result != Int(token))
  }

  /** What a request passes over: an empty line, or anything that mentions an event. */
  predicate Event(parse: Parser, line: Bytes) {
    || line == [] || (parse(line).Object? && parse(line).event)
    || (parse(line).NonObject? && parse(line).mentionsEvent)
  }

  lemma DecidingIs(step: Bytes -> Step, lines: seq<Bytes>, k: nat)
    requires k <= |lines| && forall i :: 0 <= i < k ==> step(Stripped(lines[i])) == Skip
    requires k < |lines| ==> step(Stripped(lines[k])).Stop?
    ensures Deciding(step, lines) == k
  {
  }

  /** A resynchronisation passes over stale lines; the first other one is the token's answer, or it crashes. */
  lemma ResyncEnds(parse: Parser, token: int, stream: Bytes, k: nat)
    requires k <= |LinesOf(stream)|
    requires forall i :: 0 <= i < k ==> Stale(parse, token, Stripped(LinesOf(stream)[i]))
    requires k < |LinesOf(stream)| ==> !Stale(parse, token, Stripped(LinesOf(stream)[k]))
    ensures var lines, tail := LinesOf(stream), TailOf(stream);
      Consume(line => SyncStep(parse, token, line), stream) ==
        if k == |lines| then (Closed, tail)
        else (if parse(Stripped(lines[k])).Object? then Synced else Crashed, Rejoined(lines[k + 1..], tail))
  {
    var step := line => SyncStep(parse, token, line);
    DecidingIs(step, LinesOf(stream), k);
    ConsumeIsExact(step, stream);
  }

  /** A request passes over events; the first other line is its answer, or it crashes. */
  lemma RequestEnds(parse: Parser, stream: Bytes, m: nat)
    requires m <= |LinesOf(stream)|
    requires forall i :: 0 <= i < m ==> Event(parse, Stripped(LinesOf(stream)[i]))
    requires m < |LinesOf(stream)| ==> !Event(parse, Stripped(LinesOf(stream)[m]))
    ensures var lines, tail := LinesOf(stream), TailOf(stream);
      Consume(line => RpcStep(parse, line), stream) ==
        if m == |lines| then (Closed, tail)
        else (if !parse(Stripped(lines[m])).Object? then Crashed
              else if parse(Stripped(lines[m])).error then AgentError
              else Returned(parse(Stripped(lines[m])).result), Rejoined(lines[m + 1..], tail))
  {
    var step := line => RpcStep(parse, line);
    DecidingIs(step, LinesOf(stream), m);
    ConsumeIsExact(step, stream);
  }

  /** The lines behind the `k`-th are the lines of what is left behind it. */
  lemma {:induction false} LinesLeft(stream: Bytes, k: nat)
    requires k <= |LinesOf(stream)|
    ensures LinesOf(Rejoined(LinesOf(stream)[k..], TailOf(stream))) == LinesOf(stream)[k..]
    ensures TailOf(Rejoined(LinesOf(stream)[k..], TailOf(stream))) == TailOf(stream)
    decreases |stream|
  {
    if k == 0 {
      LinesRejoin(stream);
      assert LinesOf(stream)[0..] == LinesOf(stream);
    } else {
      var rest := stream[FindNewline(stream) + 1..];
      assert LinesOf(stream)[k..] == LinesOf(rest)[k - 1..];
      LinesLeft(rest, k - 1);
    }
  }

  predicate EventsBetween(parse: Parser, lines: seq<Bytes>, k: nat, m: nat) {
    forall i :: k < i < m && i < |lines| ==> Event(parse, Stripped(lines[i]))
  }

  /** The answer behind line `k`, at line `m`. */
  lemma AnswerBehind(parse: Parser, stream: Bytes, k: nat, m: nat)
    requires k < m < |LinesOf(stream)| && EventsBetween(parse, LinesOf(stream), k, m)
    requires !Event(parse, Stripped(LinesOf(stream)[m])) && parse(Stripped(LinesOf(stream)[m])).Object?
    ensures var lines, tail, reply := LinesOf(stream), TailOf(stream), parse(Stripped(LinesOf(stream)[m]));
      Consume(line => RpcStep(parse, line), Rejoined(lines[k + 1..], tail))
        == (if reply.error then AgentError else Returned(reply.result), Rejoined(lines[m + 1..], tail))
  {
    var lines := LinesOf(stream);
    var later := lines[k + 1..];
    LinesLeft(stream, k + 1);
    forall i | 0 <= i < m - k - 1
      ensures Event(parse, Stripped(later[i]))
    {
      assert later[i] == lines[k + 1 + i];
    }
    assert later[m - k - 1] == lines[m] && later[m - k..] == lines[m + 1..];
    RequestEnds(parse, Rejoined(later, TailOf(stream)), m - k - 1);
  }

  /**
   A synchronised call: stale lines, then the token's answer at line `k`, then
   events, then at line `m` an object.  That object is the answer, and everything
   behind its line is left.
   */
  lemma CallAnswers(parse: Parser, token: int, stream: Bytes, k: nat, m: nat)
    requires k < m < |LinesOf(stream)|
    requires forall i :: 0 <= i < k ==> Stale(parse, token, Stripped(LinesOf(stream)[i]))
    requires !Stale(parse, token, Stripped(LinesOf(stream)[k])) && parse(Stripped(LinesOf(stream)[k])).Object?
    requires EventsBetween(parse, LinesOf(stream), k, m)
    requires !Event(parse, Stripped(LinesOf(stream)[m])) && parse(Stripped(LinesOf(stream)[m])).Object?
    ensures var lines, reply := LinesOf(stream), parse(Stripped(LinesOf(stream)[m]));
      Conversation(parse, token, stream)
        == (if reply.error then AgentError else Returned(reply.result), Rejoined(lines[m + 1..], TailOf(stream)))
  {
    ResyncEnds(parse, token, stream, k);
    AnswerBehind(parse, stream, k, m);
  }

  /** Two connections that deliver the same bytes in different chunks end alike, with the same bytes left. */
  method CutsDoNotMatter(a: Channel, b: Channel, token: int, hello: Bytes, request: Bytes, deadline: nat)
    returns (one: Ending, other: Ending)
    requires a != b && a.parse == b.parse && a.Pending() == b.Pending()
    requires deadline > |a.chunks| + |b.chunks| + Newlines(a.Pending())
    modifies a, b
    ensures one == other && a.Pending() == b.Pending()
  {
    one := a.SyncThenRpc(token, hello, request, deadline);
    other := b.SyncThenRpc(token, hello, request, deadline);
  }
}
