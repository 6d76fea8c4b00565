/**
The pipe to `radare2 -q0`: a command goes out as a line, its reply comes back ended by a
NUL byte, in chunks the operating system chooses.
*/
module Pipe {
  import opened Sequences

  const NUL := '\0'
  const BUFFER: nat := 4096

  // ------------------------------------------------------------ the process at the other end

  /** What the process writes on reading `data`, with `line` read of the current line and `served` lines before it. */
  function Emitted(reply: (nat, string) -> string, served: nat, line: string, data: string): string
    decreases |data|
  {
    if data == "" then ""
    else if data[0] == '\n' then reply(served, line) + ['\0'] + Emitted(reply, served + 1, "", data[1..])
    else Emitted(reply, served, line + [data[0]], data[1..])
  }

  function Newlines(data: string): nat {
    if data == "" then 0 else (if data[0] == '\n' then 1 else 0) + Newlines(data[1..])
  }

  function LineAfter(line: string, data: string): string
    decreases |data|
  {
    if data == "" then line
    else if data[0] == '\n' then LineAfter("", data[1..])
    else LineAfter(line + [data[0]], data[1..])
  }

  /** The size of the next chunk, wanted by the environment, possible for `read`. */
  function Clamp(want: nat, avail: nat): (n: nat)
    requires avail > 0
    ensures 1 <= n <= avail && n <= BUFFER
  {
    var most := if avail < BUFFER then avail else BUFFER;
    if want < 1 then 1 else if want > most then most else want
  }

  /**
  The process and the two pipes. `reply` answers the n-th line; `chunk` says how large a
  piece the n-th read gets.
  */
  class Process {
    const reply: (nat, string) -> string
    const chunk: nat -> nat
    var served: nat
    var line: string
    var stream: string
    var readCount: nat

    /** The process greets with one NUL. */
    constructor (reply: (nat, string) -> string, chunk: nat -> nat)
      ensures this.reply == reply && this.chunk == chunk
      ensures served == 0 && line == "" && stream == ['\0'] && readCount == 0
    {
      this.reply, this.chunk := reply, chunk;
      served, line, stream, readCount := 0, "", ['\0'], 0;
    }

    /** Takes `w` bytes, fewer than offered when the write fails or falls short. */
    method Write(data: string, w: nat)
      requires w <= |data|
      modifies this`served, this`line, this`stream
      ensures stream == old(stream) + Emitted(reply, old(served), old(line), data[..w])
      ensures served == old(served) + Newlines(data[..w])
      ensures line == LineAfter(old(line), data[..w])
    {
      stream := stream + Emitted(reply, served, line, data[..w]);
      served := served + Newlines(data[..w]);
      line := LineAfter(line, data[..w]);
    }

    /** Nothing when the other end is closed, else between one byte and a buffer full. */
    method Read() returns (buf: string)
      modifies this`stream, this`readCount
      ensures readCount == old(readCount) + 1
      ensures buf == if old(stream) == "" then "" else old(stream)[..Clamp(chunk(old(readCount)), |old(stream)|)]
      ensures stream == old(stream)[|buf|..]
    {
      buf := "";
      if stream != "" {
        buf := stream[..Clamp(chunk(readCount), |stream|)];
      }
      stream := stream[|buf|..];
      readCount := readCount + 1;
    }
  }

  // ------------------------------------------------------------ the read loop

  /** What the read loop returns, what it leaves in the pipe, and how many reads it has made by then. */
  function Receive(stream: string, chunk: nat -> nat, readCount: nat): (string, string, nat)
    decreases |stream|
  {
    if stream == "" then ("", "", readCount + 1)
    else
      var n := Clamp(chunk(readCount), |stream|);
      var buf := stream[..n];
      if FirstIndex(buf, NUL) < n then (buf[..FirstIndex(buf, NUL)], stream[n..], readCount + 1)
      else
        Prepend(buf, Receive(stream[n..], chunk, readCount + 1))
  }

  function Prepend(out: string, r: (string, string, nat)): (string, string, nat) {
    (out + r.0, r.1, r.2)
  }

  lemma PrependTwice(a: string, b: string, r: (string, string, nat))
    ensures Prepend(a, Prepend(b, r)) == Prepend(a + b, r)
    ensures Prepend("", r) == r
  {
    assert a + (b + r.0) == a + b + r.0;
    assert "" + r.0 == r.0;
  }

  lemma EndOfStream(out: string, chunk: nat -> nat, readCount: nat)
    ensures Prepend(out, Receive("", chunk, readCount)) == (out, "", readCount + 1)
  {
    assert out + "" == out;
  }

  /** A read that meets a NUL is the last. */
  lemma LastChunk(stream: string, chunk: nat -> nat, readCount: nat, buf: string)
    requires stream != "" && buf == stream[..Clamp(chunk(readCount), |stream|)] && FirstIndex(buf, NUL) < |buf|
    ensures Receive(stream, chunk, readCount) == (buf[..FirstIndex(buf, NUL)], stream[|buf|..], readCount + 1)
  {
  }

  /** Any other is added to what has been read. */
  lemma WholeChunk(out: string, stream: string, chunk: nat -> nat, readCount: nat, buf: string)
    requires stream != "" && buf == stream[..Clamp(chunk(readCount), |stream|)] && FirstIndex(buf, NUL) == |buf|
    ensures Prepend(out, Receive(stream, chunk, readCount)) ==
            Prepend(out + buf, Receive(stream[|buf|..], chunk, readCount + 1))
  {
    PrependTwice(out, buf, Receive(stream[|buf|..], chunk, readCount + 1));
  }

  /** A chunk contributes all of it, or what it has before its first NUL. */
  lemma ReceiveChunk(stream: string, chunk: nat -> nat, readCount: nat, n: nat)
    requires stream != "" && n == Clamp(chunk(readCount), |stream|)
    ensures Receive(stream, chunk, readCount).0 ==
            stream[..FirstIndex(stream[..n], NUL)] +
            if FirstIndex(stream[..n], NUL) < n then "" else Receive(stream[n..], chunk, readCount + 1).0
  {
    var k := FirstIndex(stream[..n], NUL);
    assert stream[..n][..k] == stream[..k] + "";
  }

  lemma BeforeFirstNul(stream: string, n: nat)
    requires n <= |stream|
    ensures var k := FirstIndex(stream[..n], NUL);
            stream[..FirstIndex(stream, NUL)] ==
            stream[..k] + if k < n then "" else stream[n..][..FirstIndex(stream[n..], NUL)]
  {
    FirstIndexSplit(stream, NUL, n);
    JoinSlices(stream, n, FirstIndex(stream[n..], NUL));
  }

  lemma JoinSlices(s: string, n: nat, g: nat)
    requires n + g <= |s|
    ensures s[..n + g] == s[..n] + s[n..][..g]
  {
  }

  /** The reply is what comes before the first NUL, however the stream is cut up. */
  lemma {:induction false} ReplyIgnoresChunks(stream: string, chunk: nat -> nat, readCount: nat)
    ensures Receive(stream, chunk, readCount).0 == stream[..FirstIndex(stream, '\0')]
    decreases |stream|
  {
    if stream == "" {
    } else {
      var n := Clamp(chunk(readCount), |stream|);
      ReplyIgnoresChunks(stream[n..], chunk, readCount + 1);
      ReceiveChunk(stream, chunk, readCount, n);
      BeforeFirstNul(stream, n);
    }
  }

  /** What is left has lost at least the NUL. */
  lemma {:induction false} LeftoverIsSuffix(stream: string, chunk: nat -> nat, readCount: nat) returns (e: nat)
    ensures e <= |stream| && Receive(stream, chunk, readCount).1 == stream[e..]
    ensures FirstIndex(stream, NUL) < |stream| ==> FirstIndex(stream, NUL) < e
    ensures FirstIndex(stream, NUL) == |stream| ==> e == |stream|
    decreases |stream|
  {
    e := 0;
    if stream != "" {
      var n := Clamp(chunk(readCount), |stream|);
      var buf, rest := stream[..n], stream[n..];
      FirstIndexSplit(stream, NUL, n);
      if FirstIndex(buf, NUL) < n {
        e := n;
      } else {
        var d := LeftoverIsSuffix(rest, chunk, readCount + 1);
        e := n + d;
        assert stream[n..][d..] == stream[e..];
      }
    }
  }

  /** Read byte by byte, the stream is left just behind the NUL. */
  lemma {:induction false} ByteByByte(stream: string, readCount: nat)
    requires FirstIndex(stream, NUL) < |stream|
    ensures Receive(stream, _ => 1, readCount).1 == stream[FirstIndex(stream, NUL) + 1..]
    decreases |stream|
  {
    if stream[0] == NUL {
      assert FirstIndex(stream[..1], NUL) == 0;
    } else {
      ByteByByte(stream[1..], readCount + 1);
      FirstIndexIs(stream, NUL, 1 + FirstIndex(stream[1..], NUL));
      assert stream[1..][FirstIndex(stream[1..], NUL) + 1..] == stream[FirstIndex(stream, NUL) + 1..];
    }
  }

  /** The pipe is empty after every way of reading exactly if nothing was sent behind the first NUL. */
  lemma EmptyAfterIff(stream: string)
    ensures (forall chunk, readCount :: Receive(stream, chunk, readCount).1 == "") <==>
            FirstIndex(stream, '\0') + 1 >= |stream|
  {
    if FirstIndex(stream, NUL) + 1 >= |stream| {
      forall chunk, readCount
        ensures Receive(stream, chunk, readCount).1 == ""
      {
        var e := LeftoverIsSuffix(stream, chunk, readCount);
      }
    } else {
      ByteByByte(stream, 0);
      assert Receive(stream, _ => 1, 0).1 != "";
    }
  }

  // ------------------------------------------------------------ what one command does

  lemma {:induction false} EmittedByLine(reply: (nat, string) -> string, served: nat, line: string, command: string)
    requires '\n' !in command
    ensures Emitted(reply, served, line, command + "\n") == reply(served, line + command) + [NUL]
    ensures Newlines(command + "\n") == 1 && LineAfter(line, command + "\n") == ""
    decreases |command|
  {
    var data := command + "\n";
    if command == "" {
      assert data[1..] == "";
      assert line + command == line;
    } else {
      assert data[1..] == command[1..] + "\n";
      assert line + [command[0]] + command[1..] == line + command;
      EmittedByLine(reply, served, line + [command[0]], command[1..]);
    }
  }

  /** The replies to a command with a newline in it: that to its first line, then more. */
  lemma {:induction false} EmittedByLines(reply: (nat, string) -> string, served: nat, line: string, command: string)
    requires '\n' in command
    ensures exists first, more :: more != "" &&
              Emitted(reply, served, line, command + "\n") == reply(served, first) + [NUL] + more
    decreases |command|
  {
    var data := command + "\n";
    assert data[1..] == command[1..] + "\n";
    if command[0] == '\n' {
      var more := Emitted(reply, served + 1, "", data[1..]);
      EmitsSomething(reply, served + 1, "", command[1..]);
      assert Emitted(reply, served, line, data) == reply(served, line) + [NUL] + more;
    } else {
      EmittedByLines(reply, served, line + [command[0]], command[1..]);
    }
  }

  lemma {:induction false} EmitsSomething(reply: (nat, string) -> string, served: nat, line: string, command: string)
    ensures Emitted(reply, served, line, command + "\n") != ""
    decreases |command|
  {
    assert (command + "\n")[1..] == if command == "" then "" else command[1..] + "\n";
    if command != "" && command[0] != '\n' {
      EmitsSomething(reply, served, line + [command[0]], command[1..]);
    }
  }

  ghost predicate NulFree(reply: (nat, string) -> string) {
    forall n, line :: '\0' !in reply(n, line)
  }

  /** A command leaves the pipe empty, whatever the chunks, exactly if it is one line. */
  lemma LockStepIff(reply: (nat, string) -> string, served: nat, command: string)
    requires NulFree(reply)
    ensures (forall chunk, readCount :: Receive(Emitted(reply, served, "", command + "\n"), chunk, readCount).1 == "")
            <==> '\n' !in command
  {
    var stream := Emitted(reply, served, "", command + "\n");
    EmptyAfterIff(stream);
    if '\n' !in command {
      EmittedByLine(reply, served, "", command);
      FirstIndexIs(stream, NUL, |stream| - 1);
    } else {
      EmittedByLines(reply, served, "", command);
      var first, more :| more != "" && stream == reply(served, first) + [NUL] + more;
      FirstIndexIs(stream, NUL, |reply(served, first)|);
    }
  }

  // ------------------------------------------------------------ the backend

  class R2Pipe {
    const process: Process
    var isOpen: bool

    constructor (process: Process)
      ensures this.process == process && !isOpen
    {
      this.process := process;
      isOpen := false;
    }

    /** Both ends agree that no command is under way. */
    predicate InStep()
      reads this, process
    {
      isOpen && process.stream == "" && process.line == ""
    }

    /** The handshake: one read of one byte, which has to be NUL. */
    method Start() returns (ok: bool)
      modifies this, process
      ensures ok <==> old(process.stream) != "" && old(process.stream)[0] == '\0'
      ensures ok ==> isOpen && process.stream == old(process.stream)[1..]
      ensures process.line == old(process.line) && process.served == old(process.served)
    {
      ok := process.stream != "" && process.stream[0] == NUL;
      isOpen := ok;
      if process.stream != "" {
        process.stream := process.stream[1..];
      }
    }

    /** `w` is how much of the line the pipe accepted. */
    method Cmd(command: string, w: nat) returns (out: string)
      requires w <= |command| + 1
      modifies process
      ensures !isOpen ==> out == "" && unchanged(process)
      ensures isOpen && w <= |command| ==> out == ""
      ensures isOpen && w == |command| + 1 ==>
                var all := old(process.stream) +
                           Emitted(process.reply, old(process.served), old(process.line), command + "\n");
                && (out, process.stream, process.readCount) == Receive(all, process.chunk, old(process.readCount))
                && process.served == old(process.served) + Newlines(command + "\n")
                && process.line == LineAfter(old(process.line), command + "\n")
    {
      out := "";
      if !isOpen {
        return;
      }
      var line := command + "\n";
      process.Write(line, w);
      if w != |line| {
        return;
      }
      assert line[..w] == line;
      out := ReadReply();
    }

    /** Reads up to the chunk with the first NUL, and drops what that chunk has behind it. */
    method ReadReply() returns (out: string)
      modifies process`stream, process`readCount
      ensures (out, process.stream, process.readCount) ==
              Receive(old(process.stream), process.chunk, old(process.readCount))
    {
      out := "";
      PrependTwice("", "", Receive(process.stream, process.chunk, process.readCount));
      var more := true;
      while more
        invariant if more then Prepend(out, Receive(process.stream, process.chunk, process.readCount)) ==
                               Receive(old(process.stream), process.chunk, old(process.readCount))
                  else (out, process.stream, process.readCount) ==
                       Receive(old(process.stream), process.chunk, old(process.readCount))
        decreases more, |process.stream|
      {
        out, more := ReadChunk(out);
      }
    }

    /** One turn of the read loop; the last at the end of the stream, or at a chunk with a NUL. */
    method ReadChunk(soFar: string) returns (out: string, more: bool)
      modifies process`stream, process`readCount
      ensures more ==> |process.stream| < |old(process.stream)|
      ensures Prepend(soFar, Receive(old(process.stream), process.chunk, old(process.readCount))) ==
              if more then Prepend(out, Receive(process.stream, process.chunk, process.readCount))
              else (out, process.stream, process.readCount)
    {
      ghost var stream, readCount := process.stream, process.readCount;
      var buf := process.Read();
      if buf == "" {
        EndOfStream(soFar, process.chunk, readCount);
        return soFar, false;
      }
      var nul := FindNul(buf);
      if nul < |buf| {
        LastChunk(stream, process.chunk, readCount, buf);
        return soFar + buf[..nul], false;
      }
      WholeChunk(soFar, stream, process.chunk, readCount, buf);
      return soFar + buf, true;
    }
  }

  method FindNul(buf: string) returns (nul: nat)
    ensures nul == FirstIndex(buf, NUL)
  {
    nul := 0;
    while nul < |buf| && buf[nul] != NUL
      invariant nul <= |buf|
      invariant forall i :: 0 <= i < nul ==> buf[i] != NUL
    {
      nul := nul + 1;
    }
    FirstIndexIs(buf, NUL, nul);
  }

  /** One command in step: the reply is the process's answer to that line, and both stay in step. */
  method CmdInStep(pipe: R2Pipe, command: string) returns (out: string)
    requires pipe.InStep() && '\n' !in command && NulFree(pipe.process.reply)
    modifies pipe.process
    ensures pipe.InStep() && pipe.process.served == old(pipe.process.served) + 1
    ensures out == pipe.process.reply(old(pipe.process.served), command)
  {
    ghost var p := pipe.process;
    ghost var answer := p.reply(p.served, command);
    EmittedByLine(p.reply, p.served, "", command);
    assert "" + command == command;
    ghost var all := p.stream + Emitted(p.reply, p.served, p.line, command + "\n");
    assert all == answer + [NUL];
    FirstIndexIs(all, NUL, |answer|);
    ReplyIgnoresChunks(all, p.chunk, p.readCount);
    ghost var e := LeftoverIsSuffix(all, p.chunk, p.readCount);
    assert all[..|answer|] == answer;
    out := pipe.Cmd(command, |command| + 1);
  }

  /** A whole session, from the handshake on: the k-th command gets the k-th reply. */
  method Session(reply: (nat, string) -> string, chunk: nat -> nat, commands: seq<string>) returns (outs: seq<string>)
    requires NulFree(reply)
    requires forall k :: 0 <= k < |commands| ==> '\n' !in commands[k]
    ensures |outs| == |commands|
    ensures forall k :: 0 <= k < |commands| ==> outs[k] == reply(k, commands[k])
  {
    var process := new Process(reply, chunk);
    var pipe := new R2Pipe(process);
    var ok := pipe.Start();
    assert [NUL][1..] == "";
    outs := [];
    for k := 0 to |commands|
      invariant pipe.InStep() && pipe.process == process && process.reply == reply && process.served == k
      invariant |outs| == k && forall j :: 0 <= j < k ==> outs[j] == reply(j, commands[j])
    {
      var out := CmdInStep(pipe, commands[k]);
      outs := outs + [out];
    }
  }

  // ------------------------------------------------------------ looking a project up

  /** `s[a..b]` is a line of `s`; nothing behind a final newline is one. */
  predicate IsLine(s: string, a: nat, b: nat) {
    && a <= b <= |s| && a < |s|
    && (a == 0 || s[a - 1] == '\n')
    && (b == |s| || s[b] == '\n')
    && forall i :: a <= i < b ==> s[i] != '\n'
  }

  function TrimEnd(s: string): (r: string)
    ensures r <= s && (r != "" ==> r[|r| - 1] != '\r' && r[|r| - 1] != ' ')
    ensures forall i :: |r| <= i < |s| ==> s[i] == '\r' || s[i] == ' '
  {
    if s != "" && (s[|s| - 1] == '\r' || s[|s| - 1] == ' ') then TrimEnd(s[..|s| - 1]) else s
  }

  function TrimStart(s: string): (r: string)
    ensures |r| <= |s| && r == s[|s| - |r|..] && (r != "" ==> r[0] != ' ')
    ensures forall i :: 0 <= i < |s| - |r| ==> s[i] == ' '
  {
    if s != "" && s[0] == ' ' then TrimStart(s[1..]) else s
  }

  function Trimmed(s: string): string {
    TrimStart(TrimEnd(s))
  }

  /** `line[c..d]` is `line` without the CRs and spaces at its end and the spaces at its start. */
  predicate TrimsTo(line: string, c: nat, d: nat) {
    && c <= d <= |line|
    && (forall k :: 0 <= k < c ==> line[k] == ' ')
    && (forall k :: d <= k < |line| ==> line[k] == '\r' || line[k] == ' ')
    && (c < d ==> line[c] != ' ' && line[d - 1] != '\r' && line[d - 1] != ' ')
  }

  ghost predicate Names(line: string, name: string) {
    exists c: nat, d: nat :: TrimsTo(line, c, d) && line[c..d] == name
  }

  lemma TrimPlace(line: string) returns (c: nat, d: nat)
    ensures TrimsTo(line, c, d) && line[c..d] == Trimmed(line)
  {
    var e := TrimEnd(line);
    d := |e|;
    c := d - |TrimStart(e)|;
    assert line[..d] == e;
    assert line[c..d] == e[c..];
  }

  lemma NamesTrimmed(line: string, name: string)
    ensures Names(line, name) <==> Trimmed(line) == name
  {
    var c, d := TrimPlace(line);
    if c': nat, d': nat :| TrimsTo(line, c', d') && line[c'..d'] == name {
      OneTrim(line, c, d, c', d');
    }
  }

  lemma OneTrim(line: string, c: nat, d: nat, c': nat, d': nat)
    requires TrimsTo(line, c, d) && TrimsTo(line, c', d')
    ensures line[c..d] == line[c'..d']
  {
    if c < d || c' < d' {
      assert c < d ==> c' <= c && d <= d';
      assert c' < d' ==> c <= c' && d' <= d;
    }
  }

  ghost predicate Says(list: string, a: nat, b: nat, name: string) {
    IsLine(list, a, b) && Names(list[a..b], name)
  }

  ghost predicate ListedBefore(list: string, name: string, end: nat) {
    exists a: nat, b: nat :: a < end && Says(list, a, b, name)
  }

  ghost predicate Listed(list: string, name: string) {
    exists a: nat, b: nat :: Says(list, a, b, name)
  }

  /** A line that starts within another is that other. */
  lemma OnlyLine(s: string, a: nat, b: nat, c: nat, d: nat)
    requires IsLine(s, a, b) && IsLine(s, c, d) && a <= c <= b
    ensures a == c && b == d
  {
  }

  lemma LineSearched(list: string, name: string, start: nat, nl: nat, end: nat)
    requires IsLine(list, start, nl) && !Says(list, start, nl, name) && end <= nl + 1
    requires !ListedBefore(list, name, start)
    ensures !ListedBefore(list, name, end)
  {
    forall a: nat, b: nat | a < end && IsLine(list, a, b)
      ensures !Says(list, a, b, name)
    {
      if a >= start { OnlyLine(list, start, nl, a, b); }
    }
  }

  method FindFrom(s: string, c: char, from: nat) returns (k: nat)
    requires from <= |s|
    ensures from <= k <= |s| && (k < |s| ==> s[k] == c)
    ensures forall i :: from <= i < k ==> s[i] != c
  {
    k := from;
    while k < |s| && s[k] != c
      invariant from <= k <= |s|
      invariant forall i :: from <= i < k ==> s[i] != c
    {
      k := k + 1;
    }
  }

  method TrimLine(whole: string) returns (line: string)
    ensures line == Trimmed(whole)
  {
    line := whole;
    while line != "" && (line[|line| - 1] == '\r' || line[|line| - 1] == ' ')
      invariant TrimEnd(line) == TrimEnd(whole)
      decreases |line|
    {
      line := line[..|line| - 1];
    }
    while line != "" && line[0] == ' '
      invariant TrimStart(line) == Trimmed(whole)
      decreases |line|
    {
      line := line[1..];
    }
  }

  /** `list` is the reply to `Pl`. */
  method ProjectExists(list: string, name: string) returns (found: bool)
    ensures found <==> Listed(list, name)
  {
    var pos := 0;
    while pos < |list|
      invariant pos <= |list| && (0 < pos < |list| ==> list[pos - 1] == '\n')
      invariant !ListedBefore(list, name, pos)
    {
      var nl := FindFrom(list, '\n', pos);
      ghost var start := pos;
      var line := list[pos..nl];
      pos := if nl == |list| then |list| else nl + 1;
      NamesTrimmed(line, name);
      line := TrimLine(line);
      if line == name {
        assert Says(list, start, nl, name);
        return true;
      }
      LineSearched(list, name, start, nl, pos);
    }
    found := false;
  }
}
