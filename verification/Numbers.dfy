/**
Which number a text field holds: `std::stoll` with base 0, as the C standard describes
`strtoll`, in terms of the characters of the text.
*/
module Numbers {
  import opened Json

  /** The character `c` is the digit `d`. */
  predicate IsDigit(c: char, d: nat) {
    || ('0' <= c <= '9' && d == c as int - '0' as int)
    || ('a' <= c <= 'f' && d == c as int - 'a' as int + 10)
    || ('A' <= c <= 'F' && d == c as int - 'A' as int + 10)
  }

  predicate IsDigitBelow(c: char, base: nat) {
    exists d: nat :: d < base && IsDigit(c, d)
  }

  /** `text` is the digits `ds` of a number in that base. */
  predicate Writes(text: string, ds: seq<nat>, base: nat) {
    |text| == |ds| && forall i :: 0 <= i < |ds| ==> ds[i] < base && IsDigit(text[i], ds[i])
  }

  /** The number whose digits are `ds`. */
  function Value(ds: seq<nat>, base: nat): nat {
    if ds == [] then 0 else Value(ds[..|ds| - 1], base) * base + ds[|ds| - 1]
  }

  predicate Blanks(s: string) {
    forall i :: 0 <= i < |s| ==> s[i] in {' ', '\t', '\n', '\r', '\U{000B}', '\U{000C}'}
  }

  lemma DigitValueIs(c: char, d: nat)
    requires IsDigit(c, d)
    ensures DigitValue(c) == d
  {
  }

  lemma DigitBelow(c: char, base: nat)
    requires base <= 16
    ensures DigitValue(c) < base <==> IsDigitBelow(c, base)
  {
    if DigitValue(c) < base { assert IsDigit(c, DigitValue(c)); }
  }

  /** What follows the digits is no digit. */
  predicate Ends(rest: string, base: nat) {
    rest == "" || !IsDigitBelow(rest[0], base)
  }

  lemma OneDigit(text: string, d: nat, base: nat, rest: string, acc: seq<nat>)
    requires text != "" && d < base && IsDigit(text[0], d)
    ensures ReadDigits(text + rest, base, Value(acc, base)) ==
            ReadDigits(text[1..] + rest, base, Value(acc + [d], base))
  {
    DigitValueIs(text[0], d);
    assert (text + rest)[1..] == text[1..] + rest && (text + rest)[0] == text[0];
    assert (acc + [d])[..|acc|] == acc;
  }

  lemma {:induction false} DigitsRead(text: string, ds: seq<nat>, base: nat, rest: string, acc: seq<nat>)
    requires base <= 16 && Writes(text, ds, base) && Ends(rest, base)
    ensures ReadDigits(text + rest, base, Value(acc, base)) == Value(acc + ds, base)
    decreases |ds|
  {
    if ds == [] {
      assert text + rest == rest && acc + ds == acc;
      if rest != "" { DigitBelow(rest[0], base); }
    } else {
      var acc' := acc + [ds[0]];
      DigitsRead(text[1..], ds[1..], base, rest, acc');
      OneDigit(text, ds[0], base, rest, acc);
      assert acc' + ds[1..] == acc + ds;
    }
  }

  lemma AllDigitsRead(text: string, ds: seq<nat>, base: nat, rest: string)
    requires base <= 16 && Writes(text, ds, base) && Ends(rest, base)
    ensures ReadDigits(text + rest, base, 0) == Value(ds, base)
  {
    DigitsRead(text, ds, base, rest, []);
    assert [] + ds == ds;
  }

  /** `body` starts with the number `n`: decimal, octal behind a 0, or hexadecimal behind 0x. */
  ghost predicate StartsWithNumber(body: string, n: nat) {
    exists text, ds, rest ::
      Decimal(body, text, ds, rest, n) || Octal(body, text, ds, rest, n) || Hex(body, text, ds, rest, n)
  }

  predicate Decimal(body: string, text: string, ds: seq<nat>, rest: string, n: nat) {
    body == text + rest && Writes(text, ds, 10) && Ends(rest, 10) && n == Value(ds, 10) && ds != [] && ds[0] != 0
  }

  predicate Octal(body: string, text: string, ds: seq<nat>, rest: string, n: nat) {
    && body == text + rest && Writes(text, ds, 8) && Ends(rest, 8) && n == Value(ds, 8) && ds != [] && ds[0] == 0
    && !(|body| >= 3 && body[1] in {'x', 'X'} && IsDigitBelow(body[2], 16))
  }

  predicate Hex(body: string, text: string, ds: seq<nat>, rest: string, n: nat) {
    && |body| >= 2 && body[0] == '0' && body[1] in {'x', 'X'} && body[2..] == text + rest
    && Writes(text, ds, 16) && Ends(rest, 16) && n == Value(ds, 16) && ds != []
  }

  lemma NumberRead(body: string, n: nat)
    requires StartsWithNumber(body, n)
    ensures ReadNumber(body) == Some(n)
  {
    var text, ds, rest :|
      Decimal(body, text, ds, rest, n) || Octal(body, text, ds, rest, n) || Hex(body, text, ds, rest, n);
    if Hex(body, text, ds, rest, n) {
      DigitValueIs(text[0], ds[0]);
      AllDigitsRead(text, ds, 16, rest);
    } else {
      DigitValueIs(text[0], ds[0]);
      AllDigitsRead(text, ds, if ds[0] == 0 then 8 else 10, rest);
      assert body[0] == text[0];
      if |body| >= 3 { DigitBelow(body[2], 16); }
    }
  }

  lemma {:induction false} BlanksSkipped(blanks: string, body: string)
    requires Blanks(blanks) && (body != "" ==> !Blanks(body[..1]))
    ensures SkipSpaces(blanks + body) == body
    decreases |blanks|
  {
    if blanks == "" {
      assert blanks + body == body;
      if body != "" { assert body[..1][0] == body[0]; }
    } else {
      BlanksSkipped(blanks[1..], body);
      assert (blanks + body)[1..] == blanks[1..] + body;
    }
  }

  lemma StartsWithDigit(body: string, n: nat)
    requires StartsWithNumber(body, n)
    ensures body != "" && '0' <= body[0] <= '9'
  {
    var text, ds, rest :|
      Decimal(body, text, ds, rest, n) || Octal(body, text, ds, rest, n) || Hex(body, text, ds, rest, n);
    if !Hex(body, text, ds, rest, n) { assert body[0] == text[0]; }
  }

  lemma SkippedTo(blanks: string, sign: string, body: string)
    requires Blanks(blanks) && sign in {"", "+", "-"} && body != "" && '0' <= body[0] <= '9'
    ensures SkipSpaces(blanks + sign + body) == sign + body
  {
    var s := sign + body;
    assert s[0] == if sign == "" then body[0] else sign[0];
    assert s[..1][0] == s[0];
    BlanksSkipped(blanks, s);
    assert blanks + sign + body == blanks + s;
  }

  lemma SignedReads(text: string, sign: string, body: string, n: nat)
    requires sign in {"", "+", "-"} && body != "" && '0' <= body[0] <= '9'
    requires SkipSpaces(text) == sign + body && ReadNumber(body) == Some(n)
    ensures Stoll(text) == var v := if sign == "-" then -(n as int) else n as int;
                           if -TWO_63 <= v < TWO_63 then Some(v) else None
  {
    var s := sign + body;
    assert s[|sign|..] == body;
    assert s[0] == if sign == "" then body[0] else sign[0];
  }

  /** Blanks, a sign or none, and a number: that number, if it fits in 64 bits, whatever follows it. */
  lemma StollReads(blanks: string, sign: string, body: string, n: nat)
    requires Blanks(blanks) && sign in {"", "+", "-"} && StartsWithNumber(body, n)
    ensures var v := if sign == "-" then -(n as int) else n as int;
            Stoll(blanks + sign + body) ==
              if -0x8000_0000_0000_0000 <= v < 0x8000_0000_0000_0000 then Some(v) else None
  {
    NumberRead(body, n);
    StartsWithDigit(body, n);
    SkippedTo(blanks, sign, body);
    SignedReads(blanks + sign + body, sign, body, n);
  }

  /** No number at all: nothing but blanks and a sign in front of something that is no decimal digit. */
  lemma StollFails(blanks: string, sign: string, body: string)
    requires Blanks(blanks) && sign in {"", "+", "-"} && Ends(body, 10)
    requires sign == "" && body != "" ==> !Blanks(body[..1]) && body[0] !in {'+', '-'}
    ensures Stoll(blanks + sign + body) == None
  {
    var s := sign + body;
    if s != "" { assert s[0] == if sign == "" then body[0] else sign[0]; }
    if body != "" { DigitBelow(body[0], 10); }
    BlanksSkipped(blanks, s);
    assert blanks + sign + body == blanks + s;
    assert s[|sign|..] == body;
  }
}
