/** Parsed replies of radare2, and the accessors that never fail on them. */
module Json {

  datatype Option<+T> = None | Some(value: T)

  datatype Json =
    | Null
    | Bool(b: bool)
    | Number(n: int)
    | Float(r: real)
    | Str(s: string)
    | Arr(items: seq<Json>)
    | Obj(fields: map<string, Json>)

  /**
  The backend during one query: the reply to each command, the same parsed, and the text
  form that the JSON library gives to values that are not strings.
  */
  datatype Backend = Backend(cmd: string -> string, cmdJson: string -> Json, dump: Json -> string)

  const TWO_63: int := 0x8000_0000_0000_0000
  const TWO_64: int := 0x1_0000_0000_0000_0000

  /** The value of the 64-bit word `n` read as signed. */
  function ToInt64(n: int): (r: int)
    ensures -TWO_63 <= r < TWO_63 && (r - n) % TWO_64 == 0
    ensures -TWO_63 <= n < TWO_63 ==> r == n
  {
    var w := n % TWO_64;
    if w < TWO_63 then w else w - TWO_64
  }

  function Truncate(r: real): (t: int)
    ensures r >= 0.0 ==> t as real <= r < t as real + 1.0
    ensures r <= 0.0 ==> t as real - 1.0 < r <= t as real
  {
    if r >= 0.0 then r.Floor else -((-r).Floor)
  }

  /** The value under `key`, if there is one and it is not null. */
  function Find(j: Json, key: string): Option<Json> {
    if j.Obj? && key in j.fields && !j.fields[key].Null? then Some(j.fields[key]) else None
  }

  function Text(be: Backend, j: Json, key: string, dflt: string): string {
    match Find(j, key)
    case None => dflt
    case Some(Str(s)) => s
    case Some(v) => be.dump(v)
  }

  // ------------------------------------------------------------ std::stoll with base 0

  predicate IsSpace(c: char) {
    c == ' ' || '\t' <= c <= '\r'
  }

  function SkipSpaces(s: string): string {
    if s != "" && IsSpace(s[0]) then SkipSpaces(s[1..]) else s
  }

  /** The value of a digit in bases up to 16; 16 for anything else. */
  function DigitValue(c: char): (d: nat)
    ensures d <= 16
  {
    if '0' <= c <= '9' then c as int - '0' as int
    else if 'a' <= c <= 'f' then c as int - 'a' as int + 10
    else if 'A' <= c <= 'F' then c as int - 'A' as int + 10
    else 16
  }

  /** Reads digits as far as they go; what follows them is ignored. */
  function ReadDigits(s: string, base: nat, acc: nat): nat {
    if s != "" && DigitValue(s[0]) < base then ReadDigits(s[1..], base, acc * base + DigitValue(s[0])) else acc
  }

  /** Nothing when no digit is found. */
  function ReadNumber(s: string): Option<nat> {
    if |s| >= 3 && s[0] == '0' && (s[1] == 'x' || s[1] == 'X') && DigitValue(s[2]) < 16 then
      Some(ReadDigits(s[2..], 16, 0))
    else if s == "" || DigitValue(s[0]) >= 10 then None
    else Some(ReadDigits(s, if s[0] == '0' then 8 else 10, 0))
  }

  /** `None` where `stoll` throws: no digits, or a value that does not fit. */
  function Stoll(text: string): Option<int> {
    var s := SkipSpaces(text);
    var negative := s != "" && s[0] == '-';
    var signed := negative || (s != "" && s[0] == '+');
    match ReadNumber(if signed then s[1..] else s)
    case None => None
    case Some(n) =>
      var v: int := if negative then -(n as int) else n;
      if -TWO_63 <= v < TWO_63 then Some(v) else None
  }

  function I64(j: Json, key: string, dflt: int): int {
    match Find(j, key)
    case Some(Number(n)) => ToInt64(n)
    case Some(Float(r)) => Truncate(r)
    case Some(Str(s)) => (match Stoll(s) case Some(v) => v case None => dflt)
    case _ => dflt
  }

  /** The address of a record: `addr` if it has one, else `offset`. */
  function I64Addr(j: Json): int {
    if Find(j, "addr").Some? then I64(j, "addr", 0) else I64(j, "offset", 0)
  }

  // ------------------------------------------------------------ what the accessors read

  /** The elements of an array; nothing else has any. */
  function Items(reply: Json): seq<Json> {
    if reply.Arr? then reply.items else []
  }

  /** The elements of the array under `key`. */
  function ItemsOf(reply: Json, key: string): seq<Json> {
    if reply.Obj? && key in reply.fields then Items(reply.fields[key]) else []
  }

  /** A text field: a string as it is, the text form of any other value, `dflt` for null, a missing key or no object. */
  lemma TextReads(be: Backend, fields: map<string, Json>, key: string, dflt: string)
    ensures key !in fields ==> Text(be, Obj(fields), key, dflt) == dflt
    ensures forall s :: Text(be, Obj(fields[key := Str(s)]), key, dflt) == s
    ensures Text(be, Obj(fields[key := Null]), key, dflt) == dflt
    ensures forall v: Json :: !(v.Null? || v.Str?) ==> Text(be, Obj(fields[key := v]), key, dflt) == be.dump(v)
    ensures forall j: Json :: !j.Obj? ==> Text(be, j, key, dflt) == dflt
  {
  }

  /** An integer field: 64-bit numbers, unsigned ones wrapped, fractions cut off, `dflt` for what is no number. */
  lemma I64Reads(fields: map<string, Json>, key: string, dflt: int)
    ensures key !in fields ==> I64(Obj(fields), key, dflt) == dflt
    ensures forall n :: -0x8000_0000_0000_0000 <= n < 0x8000_0000_0000_0000 ==>
              I64(Obj(fields[key := Number(n)]), key, dflt) == n
    ensures forall n :: 0x8000_0000_0000_0000 <= n < 0x1_0000_0000_0000_0000 ==>
              I64(Obj(fields[key := Number(n)]), key, dflt) == n - 0x1_0000_0000_0000_0000
    ensures forall r :: var t := I64(Obj(fields[key := Float(r)]), key, dflt) as real;
              if r >= 0.0 then t <= r < t + 1.0 else t - 1.0 < r <= t
    ensures forall v: Json :: v.Null? || v.Bool? || v.Arr? || v.Obj? ==> I64(Obj(fields[key := v]), key, dflt) == dflt
    ensures forall j: Json :: !j.Obj? ==> I64(j, key, dflt) == dflt
  {
  }

  /** `a` is the address of a record: its `addr`, or its `offset` if `addr` is missing or null. */
  predicate IsAddress(j: Json, a: int) {
    a == if j.Obj? && "addr" in j.fields && j.fields["addr"] != Null then I64(j, "addr", 0) else I64(j, "offset", 0)
  }

  lemma AddressIsRead(j: Json)
    ensures IsAddress(j, I64Addr(j))
  {
  }
}
