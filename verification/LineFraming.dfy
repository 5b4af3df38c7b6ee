/** Newline framing of runtime messages over a byte stream that arrives in arbitrary chunks, on the
    child's side and on the container host's side. */
module LineFraming {
  import opened Text

  // ----- specification on whole streams -------------------------------------

  function Trimmed(parts: seq<string>): seq<string> {
    if parts == [] then []
    else
      var line := Trim(parts[0]);
      (if line == [] then [] else [line]) + Trimmed(parts[1..])
  }

  /** The non-empty trimmed lines of the newline-terminated prefix of a stream. */
  function Lines(stream: string): seq<string> {
    var parts := Split(stream, '\n');
    Trimmed(parts[..|parts| - 1])
  }

  /** What follows the last newline of a stream. */
  function Rest(stream: string): string {
    var parts := Split(stream, '\n');
    parts[|parts| - 1]
  }

  function Concat(chunks: seq<string>): string {
    if chunks == [] then [] else Concat(chunks[..|chunks| - 1]) + chunks[|chunks| - 1]
  }

  /** Reading a line off the front of a stream. */
  lemma {:induction false} FirstLine(stream: string)
    ensures '\n' !in stream ==> Lines(stream) == [] && Rest(stream) == stream
    ensures '\n' in stream ==>
              var i := IndexOf(stream, '\n');
              && Rest(stream) == Rest(stream[i + 1..])
              && Lines(stream) == Trimmed([stream[..i]]) + Lines(stream[i + 1..])
  {
    hide Trim, IndexOf, Trimmed, Split;
    SplitUnfolds(stream, '\n');
    if '\n' in stream {
      var i := IndexOf(stream, '\n');
      var parts, tail := Split(stream, '\n'), Split(stream[i + 1..], '\n');
      assert parts[..|parts| - 1] == [stream[..i]] + tail[..|tail| - 1];
      TrimmedCons(stream[..i], tail[..|tail| - 1]);
    } else {
      assert Trimmed([]) == [] by { TrimmedCons([], []); }
      assert [stream][..0] == [];
    }
  }

  lemma {:induction false} TrimmedCons(part: string, parts: seq<string>)
    ensures Trimmed([part] + parts) == Trimmed([part]) + Trimmed(parts)
    ensures Trimmed([]) == []
  {
    hide Trim;
    assert ([part] + parts)[1..] == parts && [part][1..] == [];
  }

  /** A message on a line of its own is handled without the space around it, and then the rest. */
  lemma {:induction false} MessageHandled(before: string, message: string, after: string, rest: string)
    requires AllSpace(before) && AllSpace(after) && message != [] && IsTrimmed(message)
    requires '\n' !in before && '\n' !in message && '\n' !in after
    ensures Lines(before + message + after + "\n" + rest) == [message] + Lines(rest)
  {
    hide Split, IndexOf, TrimStart, TrimEnd;
    var line := before + message + after;
    TrimExactly(before, message, after);
    LineThenRest(line, rest);
  }

  /** A blank line is skipped. */
  lemma {:induction false} BlankLineSkipped(blank: string, rest: string)
    requires AllSpace(blank) && '\n' !in blank
    ensures Lines(blank + "\n" + rest) == Lines(rest)
  {
    hide Split, IndexOf;
    TrimPad(blank, []);
    assert blank + [] == blank;
    LineThenRest(blank, rest);
  }

  lemma {:induction false} LineThenRest(line: string, rest: string)
    requires '\n' !in line
    ensures Lines(line + "\n" + rest) == (if Trim(line) == [] then [] else [Trim(line)]) + Lines(rest)
  {
    hide Split, IndexOf, TrimStart, TrimEnd, Lines;
    var stream := line + "\n" + rest;
    assert stream == line + ['\n'] + rest;
    IndexOfPrefix(line, rest, '\n');
    assert stream[|line|] == '\n';
    assert stream[..|line|] == line && stream[|line| + 1..] == rest;
    FirstLine(stream);
    assert [line][1..] == [];
  }

  /** Cutting a stream in two and reading the pieces in turn handles the same lines. */
  lemma {:induction false} CutAnywhere(a: string, b: string)
    ensures Lines(a + b) == Lines(a) + Lines(Rest(a) + b)
    ensures Rest(a + b) == Rest(Rest(a) + b)
    decreases |a|
  {
    hide Lines, Rest, Trimmed, Trim, IndexOf, Split;
    FirstLine(a);
    FirstLine(a + b);
    if '\n' in a {
      var i := IndexOf(a, '\n');
      assert IndexOf(a + b, '\n') == i by {
        IndexOfPrefix(a[..i], a[i + 1..] + b, '\n');
        assert a + b == a[..i] + ['\n'] + (a[i + 1..] + b);
      }
      assert (a + b)[..i] == a[..i] && (a + b)[i + 1..] == a[i + 1..] + b;
      CutAnywhere(a[i + 1..], b);
    } else {
      assert [] + Lines(a + b) == Lines(a + b);
    }
  }

  // ----- the child's side ---------------------------------------------------

  datatype Reader = Reader(buffer: string, handled: seq<string>)

  function Feed(r: Reader, chunk: string): Reader {
    Reader(Rest(r.buffer + chunk), r.handled + Lines(r.buffer + chunk))
  }

  function FeedAll(chunks: seq<string>): Reader {
    if chunks == [] then Reader([], []) else Feed(FeedAll(chunks[..|chunks| - 1]), chunks[|chunks| - 1])
  }

  /** The standard-input handler of the plugin runtime child. */
  class ChildInput {
    var stdinBuffer: string
    var handled: seq<string>  // the lines given to the message handler, in order

    function View(): Reader
      reads this
    {
      Reader(stdinBuffer, handled)
    }

    constructor ()
      ensures View() == FeedAll([])
    {
      stdinBuffer, handled := [], [];
    }

    method OnData(chunk: string)
      modifies this
      ensures View() == Feed(old(View()), chunk)
    {
      hide Lines, Rest, TrimStart, TrimEnd;
      stdinBuffer := stdinBuffer + chunk;
      ghost var stream := stdinBuffer;
      assert [] + Lines(stream) == Lines(stream);
      FirstLine(stdinBuffer);
      while '\n' in stdinBuffer
        invariant Rest(stdinBuffer) == Rest(stream)
        invariant handled + Lines(stdinBuffer) == old(handled) + Lines(stream)
        decreases |stdinBuffer|
      {
        FirstLine(stdinBuffer);
        var newlineIndex := IndexOf(stdinBuffer, '\n');
        var line := Trim(stdinBuffer[..newlineIndex]);
        assert Trimmed([stdinBuffer[..newlineIndex]]) == if line == [] then [] else [line];
        stdinBuffer := stdinBuffer[newlineIndex + 1..];
        if |line| == 0 {
          continue;
        }
        handled := handled + [line];
      }
      FirstLine(stdinBuffer);
    }
  }

  /** However the stream is cut into chunks, the lines handled are those of the whole stream. */
  lemma {:induction false} ChunkingIrrelevant(chunks: seq<string>)
    ensures FeedAll(chunks) == Reader(Rest(Concat(chunks)), Lines(Concat(chunks)))
  {
    hide Lines, Rest;
    if chunks == [] {
      FirstLine([]);
    } else {
      var init, last := chunks[..|chunks| - 1], chunks[|chunks| - 1];
      ChunkingIrrelevant(init);
      CutAnywhere(Concat(init), last);
    }
  }

  // ----- encoding and decoding ----------------------------------------------

  /** The text of one message: JSON written on one line, as section 7 of RFC 8259 guarantees for
      strings and the serializer for the rest. */
  predicate WireSafe(message: string) {
    message != [] && IsTrimmed(message) && '\n' !in message
  }

  function Encode(messages: seq<string>): string {
    if messages == [] then [] else messages[0] + "\n" + Encode(messages[1..])
  }

  lemma {:induction false} EncodedLines(messages: seq<string>)
    requires forall i :: 0 <= i < |messages| ==> WireSafe(messages[i])
    ensures Lines(Encode(messages)) == messages && Rest(Encode(messages)) == []
  {
    hide Lines, Rest, TrimStart, TrimEnd;
    var stream := Encode(messages);
    FirstLine(stream);
    if messages == [] {
    } else {
      var m, rest := messages[0], Encode(messages[1..]);
      IndexOfPrefix(m, rest, '\n');
      assert stream[..|m|] == m && stream[|m| + 1..] == rest;
      assert Trim(m) == m by { TrimIdentity(m); }
      assert Trimmed([m]) == [m];
      EncodedLines(messages[1..]);
    }
  }

  /** Messages survive the wire whole and in order, however the bytes are chunked. */
  lemma {:induction false} WireRoundTrip(messages: seq<string>, chunks: seq<string>)
    requires forall i :: 0 <= i < |messages| ==> WireSafe(messages[i])
    requires Concat(chunks) == Encode(messages)
    ensures FeedAll(chunks) == Reader([], messages)
  {
    EncodedLines(messages);
    ChunkingIrrelevant(chunks);
  }

  // ----- the container host's side ------------------------------------------

  /** As on the child's side, except that a line that breaks the protocol makes the host give the
      child up: the buffer is dropped and the child's output is no longer listened to. */
  datatype HostReader = HostReader(buffer: string, handled: seq<string>, attached: bool)

  /** The lines up to and including the first one that breaks the protocol. */
  function ThroughFirst(violates: string -> bool, lines: seq<string>): seq<string> {
    if lines == [] then []
    else if violates(lines[0]) then [lines[0]]
    else [lines[0]] + ThroughFirst(violates, lines[1..])
  }

  predicate Clean(violates: string -> bool, lines: seq<string>) {
    forall i :: 0 <= i < |lines| ==> !violates(lines[i])
  }

  function HostFeed(violates: string -> bool, r: HostReader, chunk: string): HostReader {
    if !r.attached then r
    else
      var lines := Lines(r.buffer + chunk);
      var clean := Clean(violates, lines);
      HostReader(if clean then Rest(r.buffer + chunk) else [], r.handled + ThroughFirst(violates, lines), clean)
  }

  function HostFeedAll(violates: string -> bool, chunks: seq<string>): HostReader {
    if chunks == [] then HostReader([], [], true)
    else HostFeed(violates, HostFeedAll(violates, chunks[..|chunks| - 1]), chunks[|chunks| - 1])
  }

  class HostOutput {
    const violates: string -> bool
    var stdoutBuffer: string
    var handled: seq<string>
    var attached: bool

    function View(): HostReader
      reads this
    {
      HostReader(stdoutBuffer, handled, attached)
    }

    constructor (violates: string -> bool)
      ensures this.violates == violates && View() == HostFeedAll(violates, [])
    {
      this.violates := violates;
      stdoutBuffer, handled, attached := [], [], true;
    }

    method OnData(chunk: string)
      modifies this
      ensures View() == HostFeed(violates, old(View()), chunk)
    {
      hide Lines, Rest, Trim, IndexOf, ThroughFirst, Clean;
      if !attached {
        return;
      }
      stdoutBuffer := stdoutBuffer + chunk;
      ghost var stream := stdoutBuffer;
      assert [] + ThroughFirst(violates, Lines(stream)) == ThroughFirst(violates, Lines(stream));
      while '\n' in stdoutBuffer
        invariant attached ==>
          && Rest(stdoutBuffer) == Rest(stream)
          && handled + ThroughFirst(violates, Lines(stdoutBuffer)) == old(handled) + ThroughFirst(violates, Lines(stream))
          && (Clean(violates, Lines(stream)) <==> Clean(violates, Lines(stdoutBuffer)))
        invariant !attached ==>
          && stdoutBuffer == [] && !Clean(violates, Lines(stream))
          && handled == old(handled) + ThroughFirst(violates, Lines(stream))
        decreases |stdoutBuffer|
      {
        FirstLine(stdoutBuffer);
        ghost var lines := Lines(stdoutBuffer);
        var newlineIndex := IndexOf(stdoutBuffer, '\n');
        var line := Trim(stdoutBuffer[..newlineIndex]);
        assert Trimmed([stdoutBuffer[..newlineIndex]]) == if line == [] then [] else [line];
        stdoutBuffer := stdoutBuffer[newlineIndex + 1..];
        if |line| == 0 {
          assert lines == Lines(stdoutBuffer);
          continue;
        }
        assert lines == [line] + Lines(stdoutBuffer);
        handled := handled + [line];
        if violates(line) {
          ViolationFirst(violates, line, Lines(stdoutBuffer));
          stdoutBuffer, attached := [], false;
        } else {
          CleanCons(violates, line, Lines(stdoutBuffer));
        }
      }
      FirstLine(stdoutBuffer);
      assert Clean(violates, []) && ThroughFirst(violates, []) == [] by { NothingToHandle(violates); }
    }
  }

  lemma {:induction false} NothingToHandle(violates: string -> bool)
    ensures Clean(violates, []) && ThroughFirst(violates, []) == []
  {
  }

  lemma {:induction false} ViolationFirst(violates: string -> bool, line: string, lines: seq<string>)
    requires violates(line)
    ensures !Clean(violates, [line] + lines) && ThroughFirst(violates, [line] + lines) == [line]
  {
    assert ([line] + lines)[0] == line;
  }

  lemma {:induction false} CleanCons(violates: string -> bool, line: string, lines: seq<string>)
    requires !violates(line)
    ensures Clean(violates, [line] + lines) <==> Clean(violates, lines)
    ensures ThroughFirst(violates, [line] + lines) == [line] + ThroughFirst(violates, lines)
  {
    var all := [line] + lines;
    assert forall i :: 0 <= i < |lines| ==> all[i + 1] == lines[i];
    assert all[1..] == lines;
  }

  lemma {:induction false} ThroughFirstAppend(violates: string -> bool, a: seq<string>, b: seq<string>)
    ensures ThroughFirst(violates, a + b) ==
            if Clean(violates, a) then a + ThroughFirst(violates, b) else ThroughFirst(violates, a)
    ensures Clean(violates, a + b) <==> Clean(violates, a) && Clean(violates, b)
    ensures Clean(violates, a) ==> ThroughFirst(violates, a) == a
  {
    if a == [] {
      assert a + b == b;
    } else {
      ThroughFirstAppend(violates, a[1..], b);
      assert (a + b)[1..] == a[1..] + b;
      assert a == [a[0]] + a[1..] && a + b == [a[0]] + (a[1..] + b);
      if !violates(a[0]) {
        CleanCons(violates, a[0], a[1..]);
        CleanCons(violates, a[0], a[1..] + b);
      } else {
        assert (a + b)[0] == a[0];
      }
    }
  }

  /** Whatever the chunking, the host handles the lines of the stream through the first violation,
      and keeps listening exactly when there is none. */
  lemma {:induction false} HostChunkingIrrelevant(violates: string -> bool, chunks: seq<string>)
    ensures var lines := Lines(Concat(chunks));
            HostFeedAll(violates, chunks) ==
              HostReader(if Clean(violates, lines) then Rest(Concat(chunks)) else [],
                         ThroughFirst(violates, lines), Clean(violates, lines))
  {
    hide Lines, Rest;
    if chunks == [] {
      FirstLine([]);
    } else {
      var init, last := chunks[..|chunks| - 1], chunks[|chunks| - 1];
      var lines := Lines(Concat(init));
      HostChunkingIrrelevant(violates, init);
      CutAnywhere(Concat(init), last);
      ThroughFirstAppend(violates, lines, Lines(Rest(Concat(init)) + last));
    }
  }

  /** The host handles every line exactly when no line but the last breaks the protocol. */
  lemma {:induction false} HostHandlesAll(violates: string -> bool, lines: seq<string>)
    ensures ThroughFirst(violates, lines) == lines <==> (lines == [] || Clean(violates, lines[..|lines| - 1]))
  {
    if |lines| > 1 {
      var rest := lines[1..];
      HostHandlesAll(violates, rest);
      assert lines == [lines[0]] + rest;
      assert lines[..|lines| - 1] == [lines[0]] + rest[..|rest| - 1];
      if violates(lines[0]) {
        assert lines[..|lines| - 1][0] == lines[0];
      } else {
        CleanCons(violates, lines[0], rest[..|rest| - 1]);
      }
    }
  }
}
