/** How the chat server of Lab 5 cuts the bytes it receives into messages. */
module ChatFraming {

  /** The complete lines of a stream, each with its newline, and what is left after them. */
  function Lines(stream: string): seq<string> {
    if stream == "" then []
    else
      var n := |stream| - 1;
      Lines(stream[..n]) + if stream[n] == '\n' then [Tail(stream[..n]) + "\n"] else []
  }

  function Tail(stream: string): string {
    if stream == "" || stream[|stream| - 1] == '\n' then ""
    else Tail(stream[..|stream| - 1]) + [stream[|stream| - 1]]
  }

  function Join(parts: seq<string>): string {
    if parts == [] then "" else Join(parts[..|parts| - 1]) + parts[|parts| - 1]
  }

  ghost predicate IsLine(line: string) {
    line != "" && line[|line| - 1] == '\n' && '\n' !in line[..|line| - 1]
  }

  /** lines and tail cut the stream at its newlines and nowhere else. */
  ghost predicate Cuts(stream: string, lines: seq<string>, tail: string) {
    stream == Join(lines) + tail && (forall l :: l in lines ==> IsLine(l)) && '\n' !in tail
  }

  lemma CutMore(stream: string, lines: seq<string>, tail: string, c: char)
    requires Cuts(stream, lines, tail)
    ensures c == '\n' ==> Cuts(stream + [c], lines + [tail + [c]], "")
    ensures c != '\n' ==> Cuts(stream + [c], lines, tail + [c])
  {
    var line := tail + [c];
    assert line[..|line| - 1] == tail;
    JoinSnoc(lines, line);
    assert stream + [c] == Join(lines) + line;
    assert Join(lines) + line + "" == Join(lines) + line;
  }

  lemma {:induction false} LinesCut(stream: string)
    ensures Cuts(stream, Lines(stream), Tail(stream))
  {
    if stream != "" {
      var n := |stream| - 1;
      LinesCut(stream[..n]);
      CutMore(stream[..n], Lines(stream[..n]), Tail(stream[..n]), stream[n]);
      LinesMore(stream[..n], stream[n]);
      assert stream == stream[..n] + [stream[n]];
    }
  }

  lemma JoinSnoc(parts: seq<string>, p: string)
    ensures Join(parts + [p]) == Join(parts) + p
  {
    assert (parts + [p])[..|parts|] == parts;
  }

  lemma LinesMore(stream: string, c: char)
    ensures c == '\n' ==> Lines(stream + [c]) == Lines(stream) + [Tail(stream) + [c]] && Tail(stream + [c]) == ""
    ensures c != '\n' ==> Lines(stream + [c]) == Lines(stream) && Tail(stream + [c]) == Tail(stream) + [c]
  {
    assert (stream + [c])[..|stream|] == stream;
  }

  /** There is only one way to cut a stream into lines. */
  lemma {:induction false} CutsAreUnique(stream: string, lines: seq<string>, tail: string)
    requires Cuts(stream, lines, tail)
    ensures lines == Lines(stream) && tail == Tail(stream)
    decreases |lines|, |tail|
  {
    if tail != "" {
      var n := |tail| - 1;
      var before := Join(lines) + tail[..n];
      assert stream == before + [tail[n]];
      CutsAreUnique(before, lines, tail[..n]);
      LinesMore(before, tail[n]);
    } else if lines != [] {
      var k := |lines| - 1;
      var line := lines[k];
      assert line in lines;
      var body := line[..|line| - 1];
      var before := Join(lines[..k]) + body;
      assert line == body + ['\n'] && stream == before + ['\n'];
      CutsAreUnique(before, lines[..k], body);
      LinesMore(before, '\n');
    }
  }

  function Prefixed(name: string, lines: seq<string>): (ms: seq<string>)
    ensures |ms| == |lines|
    ensures forall i :: 0 <= i < |lines| ==> ms[i] == name + ":" + lines[i]
  {
    seq(|lines|, i requires 0 <= i < |lines| => name + ":" + lines[i])
  }

  /** The unfinished message, with its prefix once it has begun. */
  function Pending(name: string, tail: string): string {
    if tail == "" then "" else name + ":" + tail
  }

  /** What the receive loop has broadcast and kept when it has seen the stream. */
  ghost predicate Framed(name: string, stream: string, broadcast: seq<string>, messageBuffer: string) {
    broadcast == Prefixed(name, Lines(stream)) && messageBuffer == Pending(name, Tail(stream))
  }

  /** One more octet, as the loop handles it. */
  lemma OneMore(name: string, stream: string, broadcast: seq<string>, messageBuffer: string, c: char)
    requires Framed(name, stream, broadcast, messageBuffer)
    ensures var begun := (if messageBuffer == "" then name + ":" else messageBuffer) + [c];
            && (c == '\n' ==> Framed(name, stream + [c], broadcast + [begun], ""))
            && (c != '\n' ==> Framed(name, stream + [c], broadcast, begun))
  {
    var next, line := stream + [c], Tail(stream) + [c];
    var begun := (if messageBuffer == "" then name + ":" else messageBuffer) + [c];
    LinesMore(stream, c);
    assert begun == name + ":" + line;
    if c == '\n' {
      assert Prefixed(name, Lines(next)) == broadcast + [begun];
    }
  }

  /** The receive loop over the chunks recv returns: what it broadcasts and what it keeps is
      determined by the stream alone, however it was cut into chunks. */
  method HandleRecv(name: string, chunks: seq<string>) returns (broadcast: seq<string>, messageBuffer: string)
    ensures broadcast == Prefixed(name, Lines(Join(chunks)))
    ensures messageBuffer == Pending(name, Tail(Join(chunks)))
  {
    broadcast, messageBuffer := [], "";
    var r := 0;
    while r < |chunks|
      invariant r <= |chunks|
      invariant Framed(name, Join(chunks[..r]), broadcast, messageBuffer)
    {
      ghost var before := Join(chunks[..r]);
      broadcast, messageBuffer := ScanChunk(name, before, chunks[r], broadcast, messageBuffer);
      JoinSnoc(chunks[..r], chunks[r]);
      assert chunks[..r + 1] == chunks[..r] + [chunks[r]];
      r := r + 1;
    }
    assert chunks[..r] == chunks;
  }

  /** The loop over one received chunk. */
  method ScanChunk(name: string, ghost before: string, buffer: string, broadcast0: seq<string>, messageBuffer0: string)
    returns (broadcast: seq<string>, messageBuffer: string)
    requires Framed(name, before, broadcast0, messageBuffer0)
    ensures Framed(name, before + buffer, broadcast, messageBuffer)
  {
    broadcast, messageBuffer := broadcast0, messageBuffer0;
    var messageLen := |messageBuffer|;
    ghost var stream := before;
    var i := 0;
    while i < |buffer|
      invariant i <= |buffer| && stream == before + buffer[..i]
      invariant Framed(name, stream, broadcast, messageBuffer) && messageLen == |messageBuffer|
    {
      OneMore(name, stream, broadcast, messageBuffer, buffer[i]);
      assert before + buffer[..i + 1] == stream + [buffer[i]];
      if messageLen == 0 {
        messageBuffer := name + ":";
        messageLen := |messageBuffer|;
      }
      messageBuffer := messageBuffer + [buffer[i]];
      messageLen := messageLen + 1;
      if buffer[i] == '\n' {
        broadcast := broadcast + [messageBuffer];
        messageLen := 0;
        messageBuffer := "";
      }
      stream := stream + [buffer[i]];
      i := i + 1;
    }
    assert buffer[..i] == buffer;
  }

  lemma LinesOfOne()
    ensures Lines("hi\n") == ["hi\n"] && Prefixed("alice", ["hi\n"]) == ["alice:hi\n"]
  {
    LinesMore("", 'h');
    LinesMore("h", 'i');
    LinesMore("hi", '\n');
    assert "" + ['h'] == "h" && "h" + ['i'] == "hi" && "hi" + ['\n'] == "hi\n" && "" + "h" == "h";
    assert Lines("hi") == [] && Tail("hi") == "hi";
    assert [] + ["hi\n"] == ["hi\n"] && "alice" + ":" + "hi\n" == "alice:hi\n";
  }
}
