/** Addresses in radare2 commands, and how they read back. */
module HexAddresses {
  import opened Json

  predicate IsInt64(n: int) {
    -TWO_63 <= n < TWO_63
  }

  function HexDigit(d: nat): (c: char)
    requires d < 16
    ensures DigitValue(c) == d && !('A' <= c <= 'F')
  {
    if d < 10 then ('0' as int + d) as char else ('a' as int + d - 10) as char
  }

  function HexDigits(n: nat): (s: string)
    ensures |s| > 0
    ensures forall i :: 0 <= i < |s| ==> DigitValue(s[i]) < 16
  {
    if n < 16 then [HexDigit(n)] else HexDigits(n / 16) + [HexDigit(n % 16)]
  }

  /** `0x%llx` of the address as an unsigned 64-bit word. */
  function HexAddr(addr: int): string {
    "0x" + HexDigits(addr % TWO_64)
  }

  lemma {:induction false} ReadDigitsAppend(s: string, c: char, acc: nat)
    requires forall i :: 0 <= i < |s| ==> DigitValue(s[i]) < 16
    requires DigitValue(c) < 16
    ensures ReadDigits(s + [c], 16, acc) == ReadDigits(s, 16, acc) * 16 + DigitValue(c)
    decreases |s|
  {
    if s == "" {
      assert (s + [c])[1..] == "";
    } else {
      assert (s + [c])[1..] == s[1..] + [c];
      ReadDigitsAppend(s[1..], c, acc * 16 + DigitValue(s[0]));
    }
  }

  lemma {:induction false} HexDigitsReadBack(n: nat)
    ensures ReadDigits(HexDigits(n), 16, 0) == n
  {
    if n < 16 {
      assert HexDigits(n)[1..] == "";
    } else {
      HexDigitsReadBack(n / 16);
      ReadDigitsAppend(HexDigits(n / 16), HexDigit(n % 16), 0);
    }
  }

  lemma {:induction false} NoLeadingZero(n: nat)
    requires n > 0
    ensures HexDigits(n)[0] != '0'
  {
    if n < 16 {
    } else {
      NoLeadingZero(n / 16);
    }
  }

  /** Written in lower-case hexadecimal, with no digit to spare. */
  lemma HexAddrShape(addr: int)
    ensures var s := HexAddr(addr);
            && |s| >= 3 && s[..2] == "0x" && (s[2] == '0' ==> s == "0x0")
            && (forall i :: 2 <= i < |s| ==> '0' <= s[i] <= '9' || 'a' <= s[i] <= 'f')
  {
    if addr % TWO_64 > 0 {
      NoLeadingZero(addr % TWO_64);
    }
    LowerCase(addr % TWO_64);
  }

  lemma {:induction false} LowerCase(n: nat)
    ensures forall i :: 0 <= i < |HexDigits(n)| ==> '0' <= HexDigits(n)[i] <= '9' || 'a' <= HexDigits(n)[i] <= 'f'
  {
    if n < 16 {
    } else {
      LowerCase(n / 16);
    }
  }

  /** Different addresses are written differently. */
  lemma HexAddrInjective(a: int, b: int)
    requires -0x8000_0000_0000_0000 <= a < 0x8000_0000_0000_0000
    requires -0x8000_0000_0000_0000 <= b < 0x8000_0000_0000_0000
    requires HexAddr(a) == HexAddr(b)
    ensures a == b
  {
    HexDigitsReadBack(a % TWO_64);
    HexDigitsReadBack(b % TWO_64);
    assert HexAddr(a)[2..] == HexDigits(a % TWO_64);
    assert HexAddr(b)[2..] == HexDigits(b % TWO_64);
  }

  lemma HexNumberReadBack(n: nat)
    ensures ReadNumber("0x" + HexDigits(n)) == Some(n)
  {
    HexDigitsReadBack(n);
    assert ("0x" + HexDigits(n))[2..] == HexDigits(n);
  }

  lemma StollOfHexAddr(addr: int)
    requires IsInt64(addr)
    ensures Stoll(HexAddr(addr)) == if addr >= 0 then Some(addr) else None
  {
    var n := addr % TWO_64;
    var s := HexAddr(addr);
    HexNumberReadBack(n);
    assert SkipSpaces(s) == s;
  }

  /** A string field that holds an address reads as that address exactly if it is not negative. */
  lemma HexAddrReadsBack(addr: int, key: string, dflt: int)
    requires -0x8000_0000_0000_0000 <= addr < 0x8000_0000_0000_0000
    ensures I64(Obj(map[key := Str(HexAddr(addr))]), key, dflt) == if addr >= 0 then addr else dflt
  {
    StollOfHexAddr(addr);
  }

  /** `s` is `n` in hexadecimal, with no zero in front of the first digit. */
  predicate IsHex(s: string, n: nat) {
    && s != "" && s[|s| - 1] == "0123456789abcdef"[n % 16]
    && if n < 16 then |s| == 1 else IsHex(s[..|s| - 1], n / 16)
  }

  lemma DigitIs(d: nat)
    requires d < 16
    ensures HexDigit(d) == "0123456789abcdef"[d]
  {
  }

  lemma {:induction false} DigitsAreHex(n: nat)
    ensures IsHex(HexDigits(n), n)
  {
    DigitIs(n % 16);
    if n < 16 {
    } else {
      DigitsAreHex(n / 16);
      assert HexDigits(n)[..|HexDigits(n)| - 1] == HexDigits(n / 16);
    }
  }

  /** What is written is `0x` and the address as an unsigned 64-bit word. */
  lemma HexAddrSays(addr: int)
    ensures HexAddr(addr)[..2] == "0x" && IsHex(HexAddr(addr)[2..], addr % 0x1_0000_0000_0000_0000)
  {
    DigitsAreHex(addr % TWO_64);
    assert HexAddr(addr)[2..] == HexDigits(addr % TWO_64);
  }
}
