/** Base64 as in section 4 of RFC 4648: the standard alphabet, with padding. */
module Base64 {
  import opened Json

  newtype byte = n: int | 0 <= n < 256

  /** What a character of an encoding stands for: six bits, or padding. */
  datatype Symbol = Six(k: nat) | Pad

  // ------------------------------------------------------------ the alphabet

  function CharOf(sym: Symbol): char {
    match sym
    case Pad => '='
    case Six(k) =>
      if k < 26 then ('A' as int + k) as char
      else if k < 52 then ('a' as int + k - 26) as char
      else if k < 62 then ('0' as int + k - 52) as char
      else if k == 62 then '+'
      else '/'
  }

  function SymbolOf(c: char): Option<Symbol> {
    if 'A' <= c <= 'Z' then Some(Six(c as int - 'A' as int))
    else if 'a' <= c <= 'z' then Some(Six(c as int - 'a' as int + 26))
    else if '0' <= c <= '9' then Some(Six(c as int - '0' as int + 52))
    else if c == '+' then Some(Six(62))
    else if c == '/' then Some(Six(63))
    else if c == '=' then Some(Pad)
    else None
  }

  predicate IsSymbol(sym: Symbol) {
    sym.Six? ==> sym.k < 64
  }

  lemma CharReadsBack(sym: Symbol)
    requires IsSymbol(sym)
    ensures SymbolOf(CharOf(sym)) == Some(sym)
  {
  }

  function Chars(syms: seq<Symbol>): (s: string)
    ensures |s| == |syms|
    ensures forall i :: 0 <= i < |s| ==> s[i] == CharOf(syms[i])
  {
    seq(|syms|, i requires 0 <= i < |syms| => CharOf(syms[i]))
  }

  /** Nothing if a character is outside the alphabet. */
  function Symbols(s: string): Option<seq<Symbol>> {
    if s == "" then Some([])
    else
      match (SymbolOf(s[0]), Symbols(s[1..]))
      case (Some(sym), Some(rest)) => Some([sym] + rest)
      case _ => None
  }

  lemma {:induction false} CharsReadBack(syms: seq<Symbol>)
    requires forall i :: 0 <= i < |syms| ==> IsSymbol(syms[i])
    ensures Symbols(Chars(syms)) == Some(syms)
  {
    if syms == [] {
    } else {
      CharReadsBack(syms[0]);
      CharsReadBack(syms[1..]);
      assert Chars(syms)[1..] == Chars(syms[1..]);
      assert syms == [syms[0]] + syms[1..];
    }
  }

  // ------------------------------------------------------------ decoding

  function LowByte(v: nat): byte {
    (v % 256) as byte
  }

  /** The bytes of one group of four sextets; bits that padding leaves over must be zero. */
  function DecodeGroup(a: Symbol, b: Symbol, c: Symbol, d: Symbol): Option<seq<byte>> {
    match (a, b, c, d)
    case (Six(i), Six(j), Six(k), Six(l)) =>
      Some([LowByte(i * 4 + j / 16), LowByte(j % 16 * 16 + k / 4), LowByte(k % 4 * 64 + l)])
    case (Six(i), Six(j), Six(k), Pad) =>
      if k % 4 == 0 then Some([LowByte(i * 4 + j / 16), LowByte(j % 16 * 16 + k / 4)]) else None
    case (Six(i), Six(j), Pad, Pad) =>
      if j % 16 == 0 then Some([LowByte(i * 4 + j / 16)]) else None
    case _ => None
  }

  /** Padding may only be in the last group. */
  function DecodeSymbols(syms: seq<Symbol>): Option<seq<byte>> {
    if syms == [] then Some([])
    else if |syms| < 4 then None
    else
      match (DecodeGroup(syms[0], syms[1], syms[2], syms[3]), DecodeSymbols(syms[4..]))
      case (Some(group), Some(rest)) => if |group| < 3 && rest != [] then None else Some(group + rest)
      case _ => None
  }

  function Decode(s: string): Option<seq<byte>> {
    match Symbols(s)
    case None => None
    case Some(syms) => DecodeSymbols(syms)
  }

  // ------------------------------------------------------------ encoding

  // The four sextets of a 24-bit word, from the top.

  function S3(v: nat): Symbol { Six(v / 262144 % 64) }

  function S2(v: nat): Symbol { Six(v / 4096 % 64) }

  function S1(v: nat): Symbol { Six(v / 64 % 64) }

  function S0(v: nat): Symbol { Six(v % 64) }

  function Word1(x: byte): nat { x as nat * 65536 }

  function Word2(x: byte, y: byte): nat { x as nat * 65536 + y as nat * 256 }

  function Word3(x: byte, y: byte, z: byte): nat { x as nat * 65536 + y as nat * 256 + z as nat }

  function Group(d: seq<byte>): (g: seq<Symbol>)
    requires 1 <= |d| <= 3
    ensures |g| == 4
  {
    if |d| == 1 then var v := Word1(d[0]); [S3(v), S2(v), Pad, Pad]
    else if |d| == 2 then var v := Word2(d[0], d[1]); [S3(v), S2(v), S1(v), Pad]
    else var v := Word3(d[0], d[1], d[2]); [S3(v), S2(v), S1(v), S0(v)]
  }

  function EncodedSymbols(d: seq<byte>): seq<Symbol> {
    if d == [] then []
    else if |d| <= 3 then Group(d)
    else Group(d[..3]) + EncodedSymbols(d[3..])
  }

  function Encoded(d: seq<byte>): string {
    Chars(EncodedSymbols(d))
  }

  lemma CharsAppend(a: seq<Symbol>, b: seq<Symbol>)
    ensures Chars(a + b) == Chars(a) + Chars(b)
  {
  }

  /** The unencoded rest begins with a whole group. */
  lemma EncodedFrom(d: seq<byte>, i: nat, out: string)
    requires i + 3 <= |d| && Encoded(d) == out + Encoded(d[i..])
    ensures Encoded(d) == out + Chars(Group(d[i..i + 3])) + Encoded(d[i + 3..])
  {
    assert d[i..][..3] == d[i..i + 3] && d[i..][3..] == d[i + 3..];
    if i + 3 == |d| {
      assert d[i..] == d[i..i + 3] && d[i + 3..] == [];
    }
    CharsAppend(Group(d[i..i + 3]), EncodedSymbols(d[i + 3..]));
  }

  method EncodeGroup(d: seq<byte>) returns (group: string)
    requires 1 <= |d| <= 3
    ensures group == Chars(Group(d))
  {
    if |d| == 1 {
      var v := Word1(d[0]);
      group := [CharOf(S3(v)), CharOf(S2(v)), '=', '='];
    } else if |d| == 2 {
      var v := Word2(d[0], d[1]);
      group := [CharOf(S3(v)), CharOf(S2(v)), CharOf(S1(v)), '='];
    } else {
      var v := Word3(d[0], d[1], d[2]);
      group := [CharOf(S3(v)), CharOf(S2(v)), CharOf(S1(v)), CharOf(S0(v))];
    }
  }

  method Encode(d: seq<byte>) returns (out: string)
    ensures out == Encoded(d)
  {
    out := "";
    var n := |d|;
    var i := 0;
    assert d[0..] == d;
    while i + 3 <= n
      invariant i <= n
      invariant Encoded(d) == out + Encoded(d[i..])
    {
      var group := EncodeGroup(d[i..i + 3]);
      EncodedFrom(d, i, out);
      out := out + group;
      i := i + 3;
    }
    if i < n {
      var group := EncodeGroup(d[i..]);
      out := out + group;
    }
  }

  // ------------------------------------------------------------ the round trip

  lemma Split64(k: nat, r: nat)
    requires r < 64
    ensures (k * 64 + r) / 64 == k && (k * 64 + r) % 64 == r
  {
  }

  lemma Split4096(k: nat, r: nat)
    requires r < 4096
    ensures (k * 4096 + r) / 4096 == k
  {
  }

  lemma Split262144(k: nat, r: nat)
    requires r < 262144
    ensures (k * 262144 + r) / 262144 == k
  {
  }

  // The sextets of the word that three bytes make.

  lemma Top(x: nat, y: nat, z: nat)
    requires x < 256 && y < 256 && z < 256
    ensures S3(x * 65536 + y * 256 + z) == Six(x / 4)
  {
    Split262144(x / 4, x % 4 * 65536 + y * 256 + z);
    assert x / 4 * 262144 + (x % 4 * 65536 + y * 256 + z) == x * 65536 + y * 256 + z;
  }

  lemma Second(x: nat, y: nat, z: nat)
    requires x < 256 && y < 256 && z < 256
    ensures S2(x * 65536 + y * 256 + z) == Six(x % 4 * 16 + y / 16)
  {
    Split4096(x * 16 + y / 16, y % 16 * 256 + z);
    assert (x * 16 + y / 16) * 4096 + (y % 16 * 256 + z) == x * 65536 + y * 256 + z;
    Split64(x / 4, x % 4 * 16 + y / 16);
    assert x / 4 * 64 + (x % 4 * 16 + y / 16) == x * 16 + y / 16;
  }

  lemma Third(x: nat, y: nat, z: nat)
    requires x < 256 && y < 256 && z < 256
    ensures S1(x * 65536 + y * 256 + z) == Six(y % 16 * 4 + z / 64)
  {
    Split64(x * 1024 + y * 4 + z / 64, z % 64);
    assert (x * 1024 + y * 4 + z / 64) * 64 + z % 64 == x * 65536 + y * 256 + z;
    Split64(x * 16 + y / 16, y % 16 * 4 + z / 64);
    assert (x * 16 + y / 16) * 64 + (y % 16 * 4 + z / 64) == x * 1024 + y * 4 + z / 64;
  }

  lemma Bottom(x: nat, y: nat, z: nat)
    requires x < 256 && y < 256 && z < 256
    ensures S0(x * 65536 + y * 256 + z) == Six(z % 64)
  {
    Split64(x * 1024 + y * 4 + z / 64, z % 64);
    assert (x * 1024 + y * 4 + z / 64) * 64 + z % 64 == x * 65536 + y * 256 + z;
  }

  lemma SextetsToBytes(x: nat, y: nat, z: nat, i: nat, j: nat, k: nat, l: nat)
    requires i == x / 4 && j == x % 4 * 16 + y / 16 && k == y % 16 * 4 + z / 64 && l == z % 64
    requires x < 256 && y < 256 && z < 256
    ensures i * 4 + j / 16 == x && j % 16 == y / 16
    ensures j % 16 * 16 + k / 4 == y && k % 4 == z / 64
    ensures k % 4 * 64 + l == z
  {
    assert j / 16 == x % 4;
    assert k / 4 == y % 16;
  }

  lemma DecodeSextets(x: byte, y: byte, z: byte, i: nat, j: nat, k: nat, l: nat)
    requires i * 4 + j / 16 == x as nat && j % 16 * 16 + k / 4 == y as nat && k % 4 * 64 + l == z as nat
    ensures DecodeGroup(Six(i), Six(j), Six(k), Six(l)) == Some([x, y, z])
    ensures k % 4 == 0 ==> DecodeGroup(Six(i), Six(j), Six(k), Pad) == Some([x, y])
    ensures j % 16 == 0 ==> DecodeGroup(Six(i), Six(j), Pad, Pad) == Some([x])
  {
  }

  /** A group of symbols is the sextets of its bytes, missing bytes read as 0, with padding for what they alone fill. */
  lemma GroupIs(d: seq<byte>, x: nat, y: nat, z: nat)
    requires 1 <= |d| <= 3 && x == d[0] as nat
    requires y == (if |d| > 1 then d[1] as nat else 0) && z == (if |d| > 2 then d[2] as nat else 0)
    ensures Group(d) == [Six(x / 4), Six(x % 4 * 16 + y / 16),
                         if |d| > 1 then Six(y % 16 * 4 + z / 64) else Pad,
                         if |d| > 2 then Six(z % 64) else Pad]
  {
    Top(x, y, z);
    Second(x, y, z);
    Third(x, y, z);
    Bottom(x, y, z);
  }

  lemma GroupReadsBack(d: seq<byte>)
    requires 1 <= |d| <= 3
    ensures var g := Group(d); DecodeGroup(g[0], g[1], g[2], g[3]) == Some(d)
  {
    var x, y, z := d[0], if |d| > 1 then d[1] else 0, if |d| > 2 then d[2] else 0;
    GroupIs(d, x as nat, y as nat, z as nat);
    SextetsReadBack(x, y, z);
    assert d == if |d| == 1 then [x] else if |d| == 2 then [x, y] else [x, y, z];
  }

  lemma SextetsReadBack(x: byte, y: byte, z: byte)
    ensures var i, j := x as nat / 4, x as nat % 4 * 16 + y as nat / 16;
            var k, l := y as nat % 16 * 4 + z as nat / 64, z as nat % 64;
            && DecodeGroup(Six(i), Six(j), Six(k), Six(l)) == Some([x, y, z])
            && (z == 0 ==> DecodeGroup(Six(i), Six(j), Six(k), Pad) == Some([x, y]))
            && (y == 0 ==> DecodeGroup(Six(i), Six(j), Pad, Pad) == Some([x]))
  {
    var i, j := x as nat / 4, x as nat % 4 * 16 + y as nat / 16;
    var k, l := y as nat % 16 * 4 + z as nat / 64, z as nat % 64;
    SextetsToBytes(x as nat, y as nat, z as nat, i, j, k, l);
    DecodeSextets(x, y, z, i, j, k, l);
  }

  lemma DecodeStep(g: seq<Symbol>, rest: seq<Symbol>, group: seq<byte>, tail: seq<byte>)
    requires |g| == 4 && DecodeGroup(g[0], g[1], g[2], g[3]) == Some(group)
    requires DecodeSymbols(rest) == Some(tail) && (|group| == 3 || tail == [])
    ensures DecodeSymbols(g + rest) == Some(group + tail)
  {
    assert (g + rest)[4..] == rest;
  }

  lemma EncodedStep(d: seq<byte>)
    requires d != []
    ensures var n := if |d| < 3 then |d| else 3;
            EncodedSymbols(d) == Group(d[..n]) + EncodedSymbols(d[n..])
  {
    if |d| <= 3 {
      assert d[..|d|] == d && d[|d|..] == [];
    }
  }

  lemma {:induction false} SymbolsReadBack(d: seq<byte>)
    ensures DecodeSymbols(EncodedSymbols(d)) == Some(d)
    decreases |d|
  {
    if d == [] {
    } else {
      var n := if |d| < 3 then |d| else 3;
      EncodedStep(d);
      GroupReadsBack(d[..n]);
      SymbolsReadBack(d[n..]);
      DecodeStep(Group(d[..n]), EncodedSymbols(d[n..]), d[..n], d[n..]);
      assert d == d[..n] + d[n..];
    }
  }

  lemma {:induction false} SymbolsValid(d: seq<byte>)
    ensures forall i :: 0 <= i < |EncodedSymbols(d)| ==> IsSymbol(EncodedSymbols(d)[i])
    decreases |d|
  {
    if |d| <= 3 {
    } else {
      SymbolsValid(d[3..]);
    }
  }

  /** Decoding gives every byte string back. */
  lemma DecodeEncoded(d: seq<byte>)
    ensures Decode(Encoded(d)) == Some(d)
  {
    SymbolsReadBack(d);
    SymbolsValid(d);
    CharsReadBack(EncodedSymbols(d));
  }

  function Padding(n: nat): nat {
    (3 - n % 3) % 3
  }

  lemma GroupShape(d: seq<byte>)
    requires 1 <= |d| <= 3
    ensures forall i :: 0 <= i < 4 ==> (Group(d)[i] == Pad <==> i > |d|)
  {
  }

  lemma PaddingStep(n: nat)
    ensures n >= 3 ==> (n + 2) / 3 * 4 == (n - 3 + 2) / 3 * 4 + 4 && Padding(n) == Padding(n - 3)
    ensures 1 <= n <= 3 ==> (n + 2) / 3 * 4 == 4 && Padding(n) == 3 - n
  {
  }

  lemma {:induction false} SymbolsShape(d: seq<byte>)
    ensures |EncodedSymbols(d)| == (|d| + 2) / 3 * 4
    ensures forall i :: 0 <= i < |EncodedSymbols(d)| ==>
              (EncodedSymbols(d)[i] == Pad <==> i >= |EncodedSymbols(d)| - Padding(|d|))
    decreases |d|
  {
    if d == [] {
    } else {
      var n := if |d| < 3 then |d| else 3;
      EncodedStep(d);
      GroupShape(d[..n]);
      SymbolsShape(d[n..]);
      PaddingStep(|d|);
    }
  }

  /** Four characters for three bytes or part of them; the padding is at the end, the rest is from the alphabet. */
  lemma EncodedShape(d: seq<byte>)
    ensures |Encoded(d)| == (|d| + 2) / 3 * 4
    ensures forall i :: 0 <= i < |Encoded(d)| ==> SymbolOf(Encoded(d)[i]).Some?
    ensures forall i :: 0 <= i < |Encoded(d)| ==> (Encoded(d)[i] == '=' <==> i >= |Encoded(d)| - Padding(|d|))
  {
    SymbolsShape(d);
    SymbolsValid(d);
    forall i | 0 <= i < |Encoded(d)|
      ensures SymbolOf(Encoded(d)[i]) == Some(EncodedSymbols(d)[i])
    {
      CharReadsBack(EncodedSymbols(d)[i]);
    }
  }

  /** The character for the six bits `k`, as in table 1 of RFC 4648. */
  predicate StandsFor(c: char, k: nat) {
    || ('A' <= c <= 'Z' && k == c as int - 'A' as int)
    || ('a' <= c <= 'z' && k == c as int - 'a' as int + 26)
    || ('0' <= c <= '9' && k == c as int - '0' as int + 52)
    || (c == '+' && k == 62)
    || (c == '/' && k == 63)
  }

  /** Byte `i`; 0 behind the end, which is how a last group is filled up. */
  function ByteAt(d: seq<byte>, i: nat): (x: nat)
    ensures x < 256
  {
    if i < |d| then d[i] as nat else 0
  }

  /** Three bytes or the last of them as four characters: their bits from the top, six at a time. */
  predicate IsGroup(d: seq<byte>, out: string) {
    var x, y, z := ByteAt(d, 0), ByteAt(d, 1), ByteAt(d, 2);
    && |out| == 4
    && StandsFor(out[0], x / 4)
    && StandsFor(out[1], x % 4 * 16 + y / 16)
    && (if |d| > 1 then StandsFor(out[2], y % 16 * 4 + z / 64) else out[2] == '=')
    && (if |d| > 2 then StandsFor(out[3], z % 64) else out[3] == '=')
  }

  lemma CharStands(k: nat)
    requires k < 64
    ensures StandsFor(CharOf(Six(k)), k)
  {
  }

  lemma GroupChars(d: seq<byte>)
    requires 1 <= |d| <= 3
    ensures IsGroup(d, Chars(Group(d)))
  {
    var x, y, z := ByteAt(d, 0), ByteAt(d, 1), ByteAt(d, 2);
    GroupIs(d, x, y, z);
    CharStands(x / 4);
    CharStands(x % 4 * 16 + y / 16);
    CharStands(y % 16 * 4 + z / 64);
    CharStands(z % 64);
  }

  /** The whole encoding, three bytes after the other. */
  predicate IsEncoding(d: seq<byte>, out: string)
    decreases |d|
  {
    if d == [] then out == ""
    else
      var n := if |d| < 3 then |d| else 3;
      |out| >= 4 && IsGroup(d[..n], out[..4]) && IsEncoding(d[n..], out[4..])
  }

  /** What is encoded is the bits of the bytes from the top, six at a time, in the characters of the standard. */
  lemma {:induction false} EncodedBits(d: seq<byte>)
    ensures IsEncoding(d, Encoded(d))
    decreases |d|
  {
    if d == [] {
    } else {
      var n := if |d| < 3 then |d| else 3;
      EncodedStep(d);
      GroupChars(d[..n]);
      EncodedBits(d[n..]);
      CharsAppend(Group(d[..n]), EncodedSymbols(d[n..]));
      assert Encoded(d)[..4] == Chars(Group(d[..n]));
      assert Encoded(d)[4..] == Encoded(d[n..]);
    }
  }
}
