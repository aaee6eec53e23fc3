/** The stdin handler of the MCP server: newline-delimited JSON-RPC. */
module McpStdin {
  import opened Lines
  import LineFormat

  method IndexOfBreak(s: string) returns (n: int)
    ensures n == if FirstBreak(s) < |s| then FirstBreak(s) else -1
  {
    n := 0;
    while n < |s| && s[n] != '\n'
      invariant 0 <= n <= |s| && FirstBreak(s) == BreakFrom(s, n)
    {
      n := n + 1;
    }
    if n == |s| {
      return -1;
    }
  }

  class Server {
    var buffer: string
    var lines: seq<string>
    ghost var received: string

    constructor ()
      ensures Valid() && received == "" && lines == [] && buffer == ""
    {
      buffer := "";
      lines := [];
      received := "";
    }

    /** The handler has dispatched exactly the newline split of what has arrived. */
    ghost predicate Valid()
      reads this
    {
      lines == Split(received) && buffer == Tail(received)
    }

    method OnData(chunk: string)
      requires Valid()
      modifies this
      ensures Valid() && received == old(received) + chunk
      ensures lines == old(lines) + Split(old(buffer) + chunk) && '\n' !in buffer
      ensures Join(lines) + buffer == received
    {
      SplitAppend(received, chunk);
      buffer := buffer + chunk;
      ghost var whole := buffer;
      var newlineIndex := IndexOfBreak(buffer);
      while newlineIndex >= 0
        invariant newlineIndex == (if FirstBreak(buffer) < |buffer| then FirstBreak(buffer) else -1)
        invariant lines + Split(buffer) == old(lines) + Split(whole) && Tail(buffer) == Tail(whole)
        invariant received == old(received)
        decreases |buffer|
      {
        var line := buffer[..newlineIndex];
        SplitCons(lines, buffer, newlineIndex);
        buffer := buffer[newlineIndex + 1..];
        lines := lines + [line];
        newlineIndex := IndexOfBreak(buffer);
      }
      assert lines + [] == lines;
      received := received + chunk;
      SplitJoin(received);
    }

    /** At the end of the input an unterminated line that is not blank is dispatched, once. */
    method OnEnd()
      requires Valid()
      modifies this`lines
      ensures LineFormat.Trim(buffer) != [] ==> lines == Split(received) + [Tail(received)]
      ensures LineFormat.Trim(buffer) == [] ==> lines == Split(received)
    {
      if |LineFormat.Trim(buffer)| > 0 {
        lines := lines + [buffer];
      }
    }
  }

  /** The whole input in any chunks gives the same lines. */
  method Feed(chunks: seq<string>) returns (server: Server)
    ensures fresh(server) && server.Valid() && server.received == Concat(chunks)
    ensures server.lines == Split(Concat(chunks)) && server.buffer == Tail(Concat(chunks))
  {
    server := new Server();
    for i := 0 to |chunks|
      invariant fresh(server) && server.Valid() && server.received == Concat(chunks[..i])
    {
      ConcatSnoc(chunks[..i], chunks[i]);
      assert chunks[..i + 1] == chunks[..i] + [chunks[i]];
      server.OnData(chunks[i]);
    }
    assert chunks[..|chunks|] == chunks;
  }
}
