/** Free text inside radare2 commands: quoted strings, and comments passed as base64. */
module Commands {
  import opened Json
  import opened HexAddresses
  import opened Base64
  import opened Sequences

  // ------------------------------------------------------------ quoting

  function Escape(c: char): string {
    if c == '\\' then "\\\\"
    else if c == '"' then "\\\""
    else if c == '\n' then "\\n"
    else if c == '\r' then "\\r"
    else [c]
  }

  function Escaped(s: string): string {
    if s == "" then "" else Escape(s[0]) + Escaped(s[1..])
  }

  function Quoted(s: string): string {
    "\"" + Escaped(s) + "\""
  }

  lemma {:induction false} EscapedAppend(s: string, c: char)
    ensures Escaped(s + [c]) == Escaped(s) + Escape(c)
    decreases |s|
  {
    if s == "" {
      assert [c][1..] == "";
      assert Escape(c) + "" == Escape(c);
    } else {
      assert (s + [c])[1..] == s[1..] + [c];
      EscapedAppend(s[1..], c);
    }
  }

  lemma QuotedNext(s: string, i: nat)
    requires i < |s|
    ensures "\"" + Escaped(s[..i + 1]) == "\"" + Escaped(s[..i]) + Escape(s[i])
  {
    EscapedAppend(s[..i], s[i]);
    assert s[..i + 1] == s[..i] + [s[i]];
  }

  method R2Quote(s: string) returns (out: string)
    ensures out == Quoted(s)
  {
    out := "\"";
    for i := 0 to |s|
      invariant out == "\"" + Escaped(s[..i])
    {
      QuotedNext(s, i);
      var piece := [s[i]];
      match s[i] {
        case '\\' => piece := "\\\\";
        case '"' => piece := "\\\"";
        case '\n' => piece := "\\n";
        case '\r' => piece := "\\r";
        case _ =>
      }
      assert piece == Escape(s[i]);
      out := out + piece;
    }
    assert s[..|s|] == s;
    out := out + "\"";
  }

  /** Reads up to the first unescaped quote, which has to be the last character. */
  function ReadQuoted(q: string): Option<string> {
    if q == "" then None
    else if q[0] == '"' then if |q| == 1 then Some("") else None
    else if q[0] != '\\' then Prefixed(q[0], ReadQuoted(q[1..]))
    else if |q| < 2 then None
    else if q[1] == 'n' then Prefixed('\n', ReadQuoted(q[2..]))
    else if q[1] == 'r' then Prefixed('\r', ReadQuoted(q[2..]))
    else if q[1] == '\\' || q[1] == '"' then Prefixed(q[1], ReadQuoted(q[2..]))
    else None
  }

  function Prefixed(c: char, r: Option<string>): Option<string> {
    match r
    case None => None
    case Some(s) => Some([c] + s)
  }

  function Unquote(q: string): Option<string> {
    if q != "" && q[0] == '"' then ReadQuoted(q[1..]) else None
  }

  lemma ReadsOne(c: char, rest: string)
    ensures ReadQuoted(Escape(c) + rest) == Prefixed(c, ReadQuoted(rest))
  {
    var q := Escape(c) + rest;
    assert q[|Escape(c)|..] == rest;
  }

  lemma {:induction false} ReadsEscaped(s: string)
    ensures ReadQuoted(Escaped(s) + "\"") == Some(s)
    decreases |s|
  {
    if s == "" {
      assert Escaped(s) + "\"" == "\"";
    } else {
      var rest := Escaped(s[1..]) + "\"";
      ReadsEscaped(s[1..]);
      ReadsOne(s[0], rest);
      assert Escaped(s) + "\"" == Escape(s[0]) + rest;
      assert s == [s[0]] + s[1..];
    }
  }

  /**
  Unquoting gives every string back. The first quote behind the opening one that is not
  escaped is the last character, or the reader would have failed.
  */
  lemma UnquoteQuoted(s: string)
    ensures Unquote(Quoted(s)) == Some(s)
  {
    assert Quoted(s)[1..] == Escaped(s) + "\"";
    ReadsEscaped(s);
  }

  /** How a character is written between the quotes. */
  predicate IsPiece(c: char, piece: string) {
    match c
    case '\\' => piece == ['\\', '\\']
    case '"' => piece == ['\\', '"']
    case '\n' => piece == ['\\', 'n']
    case '\r' => piece == ['\\', 'r']
    case _ => piece == [c]
  }

  /** `out` is the pieces of the characters of `s`, one after the other. */
  predicate InPieces(s: string, out: string)
    decreases |s|
  {
    if s == "" then out == ""
    else
      || (|out| >= 1 && IsPiece(s[0], out[..1]) && InPieces(s[1..], out[1..]))
      || (|out| >= 2 && IsPiece(s[0], out[..2]) && InPieces(s[1..], out[2..]))
  }

  lemma {:induction false} EscapedPieces(s: string)
    ensures InPieces(s, Escaped(s))
    decreases |s|
  {
    if s == "" {
    } else {
      var e := Escape(s[0]);
      EscapedPieces(s[1..]);
      assert Escaped(s)[..|e|] == e && Escaped(s)[|e|..] == Escaped(s[1..]);
    }
  }

  /** The quoted string is a quote, each character as radare2 wants it inside quotes, and a quote. */
  lemma QuotedSays(s: string)
    ensures var q := Quoted(s);
            |q| >= 2 && q[0] == '"' && q[|q| - 1] == '"' && InPieces(s, q[1..|q| - 1])
  {
    EscapedPieces(s);
    assert Quoted(s)[1..|Quoted(s)| - 1] == Escaped(s);
  }

  lemma QuotedInjective(s: string, t: string)
    requires Quoted(s) == Quoted(t)
    ensures s == t
  {
    UnquoteQuoted(s);
    UnquoteQuoted(t);
  }

  lemma QuotedIsOneLine(s: string)
    ensures '\n' !in Quoted(s) && '\r' !in Quoted(s)
  {
    EscapedIsOneLine(s);
  }

  lemma {:induction false} EscapedIsOneLine(s: string)
    ensures '\n' !in Escaped(s) && '\r' !in Escaped(s)
    decreases |s|
  {
    if s == "" {
    } else {
      EscapedIsOneLine(s[1..]);
    }
  }

  // ------------------------------------------------------------ comments

  const SET_COMMENT := "CCu base64:"

  function CommentCommand(text: seq<byte>, addr: int): string {
    SET_COMMENT + Encoded(text) + " @ " + HexAddr(addr)
  }

  /** How radare2 takes the command apart: verb, argument up to the space, address. */
  function ReadComment(command: string): Option<(seq<byte>, nat)> {
    if SET_COMMENT <= command then ReadArguments(command[|SET_COMMENT|..]) else None
  }

  function ReadArguments(rest: string): Option<(seq<byte>, nat)> {
    var k := FirstIndex(rest, ' ');
    match (Decode(rest[..k]), ReadAddress(rest[k..]))
    case (Some(text), Some(addr)) => Some((text, addr))
    case _ => None
  }

  function ReadAddress(tail: string): Option<nat> {
    if " @ " <= tail then ReadNumber(tail[3..]) else None
  }

  lemma NoBlankInBase64(text: seq<byte>)
    ensures ' ' !in Encoded(text)
  {
    EncodedShape(text);
    assert SymbolOf(' ').None?;
  }

  lemma FirstIndexOfJoin(a: string, b: string, c: char)
    requires c !in a && b != "" && b[0] == c
    ensures FirstIndex(a + b, c) == |a|
  {
    FirstIndexIs(a + b, c, |a|);
  }

  lemma AddressReadsBack(addr: int)
    ensures ReadAddress(" @ " + HexAddr(addr)) == Some(addr % TWO_64)
  {
    var s := HexAddr(addr);
    HexDigitsReadBack(addr % TWO_64);
    assert s[2..] == HexDigits(addr % TWO_64);
    assert (" @ " + s)[3..] == s;
  }

  lemma ArgumentsReadBack(text: seq<byte>, addr: int)
    ensures ReadArguments(Encoded(text) + (" @ " + HexAddr(addr))) == Some((text, addr % TWO_64))
  {
    var argument, tail := Encoded(text), " @ " + HexAddr(addr);
    NoBlankInBase64(text);
    FirstIndexOfJoin(argument, tail, ' ');
    assert (argument + tail)[..|argument|] == argument;
    assert (argument + tail)[|argument|..] == tail;
    DecodeEncoded(text);
    AddressReadsBack(addr);
  }

  /** Whatever the text and the address, the command says exactly these. */
  lemma CommentReadsBack(text: seq<byte>, addr: int)
    ensures ReadComment(CommentCommand(text, addr)) == Some((text, addr % 0x1_0000_0000_0000_0000))
  {
    var rest := Encoded(text) + (" @ " + HexAddr(addr));
    assert CommentCommand(text, addr) == SET_COMMENT + rest;
    ArgumentsReadBack(text, addr);
  }

  /** The command, word for word. */
  ghost predicate SaysComment(command: string, text: seq<byte>, addr: int) {
    exists n: nat :: SaysCommentAt(command, text, addr, n)
  }

  /** The encoded text is `n` characters long. */
  predicate SaysCommentAt(command: string, text: seq<byte>, addr: int, n: nat) {
    var start := |"CCu base64:"|;
    && start + n + 5 <= |command| && command[..start] == "CCu base64:"
    && IsEncoding(text, command[start..start + n])
    && command[start + n..start + n + 5] == " @ 0x"
    && IsHex(command[start + n + 5..], addr % 0x1_0000_0000_0000_0000)
  }

  lemma CommentSays(text: seq<byte>, addr: int)
    ensures SaysComment(CommentCommand(text, addr), text, addr)
  {
    EncodedBits(text);
    HexAddrSays(addr);
    JoinedSays(Encoded(text), HexAddr(addr), text, addr);
  }

  lemma JoinedSays(e: string, h: string, text: seq<byte>, addr: int)
    requires IsEncoding(text, e)
    requires |h| >= 2 && h[..2] == "0x" && IsHex(h[2..], addr % 0x1_0000_0000_0000_0000)
    ensures SaysComment("CCu base64:" + e + " @ " + h, text, addr)
  {
    var tail := " @ 0x" + h[2..];
    TailSays(h);
    Parts("CCu base64:", e, tail);
    Parts(" @ 0x", h[2..], "");
    assert "CCu base64:" + e + " @ " + h == "CCu base64:" + e + tail;
    PartsSay("CCu base64:" + e + tail, e, tail, text, addr);
  }

  lemma TailSays(h: string)
    requires |h| >= 2 && h[..2] == "0x"
    ensures " @ " + h == " @ 0x" + h[2..]
  {
    assert h == h[..2] + h[2..];
  }

  lemma Parts(a: string, b: string, c: string)
    ensures var s := a + b + c;
            s[..|a|] == a && s[|a|..|a| + |b|] == b && s[|a| + |b|..] == c
  {
  }

  lemma PartsSay(command: string, e: string, tail: string, text: seq<byte>, addr: int)
    requires |command| == 11 + |e| + |tail| && command[..11] == "CCu base64:"
    requires command[11..11 + |e|] == e && command[11 + |e|..] == tail
    requires |tail| >= 5 && tail[..5] == " @ 0x" && IsEncoding(text, e)
    requires IsHex(tail[5..], addr % 0x1_0000_0000_0000_0000)
    ensures SaysComment(command, text, addr)
  {
    assert command[11 + |e|..11 + |e| + 5] == tail[..5];
    assert command[11 + |e| + 5..] == tail[5..];
    assert SaysCommentAt(command, text, addr, |e|);
  }

  class CommentRow {
    var addr: int
    var text: seq<byte>

    constructor (addr: int, text: seq<byte>)
      ensures this.addr == addr && this.text == text
    {
      this.addr, this.text := addr, text;
    }

    /** The setter of the `text` column; SQL NULL clears the comment but leaves the row as it was. */
    method SetText(v: Option<seq<byte>>) returns (command: string)
      modifies this`text
      ensures text == (match v case Some(t) => t case None => old(text))
      ensures SaysComment(command, match v case Some(t) => t case None => [], addr)
      ensures ReadComment(command) == Some((match v case Some(t) => t case None => [], addr % 0x1_0000_0000_0000_0000))
    {
      var t := if v.Some? then v.value else [];
      var argument := Encode(t);
      command := SET_COMMENT + argument + " @ " + HexAddr(addr);
      CommentReadsBack(t, addr);
      CommentSays(t, addr);
      if v.Some? {
        text := v.value;
      }
    }
  }
}
