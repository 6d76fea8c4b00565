/** The parser of `tk*`: which types there are, and of which kind. */
module TkDump {
  import opened Json
  import opened Sequences

  const KINDS := {"atomic", "struct", "union", "enum", "typedef", "func", "type"}

  predicate IsSep(c: char) {
    c == '\n' || c == ' '
  }

  // ------------------------------------------------------------ what a dump means

  function NextSep(s: string): (k: nat)
    ensures k <= |s| && (k < |s| ==> IsSep(s[k]))
    ensures forall i :: 0 <= i < k ==> !IsSep(s[i])
  {
    if s == "" || IsSep(s[0]) then 0 else 1 + NextSep(s[1..])
  }

  /** The pieces between separators; nothing behind a final separator is one. */
  function Records(s: string): seq<string> {
    if s == "" then []
    else
      var k := NextSep(s);
      [s[..k]] + if k == |s| then [] else Records(s[k + 1..])
  }

  function StripFront(s: string): string {
    if s != "" && (s[0] == '*' || s[0] == '\r') then StripFront(s[1..]) else s
  }

  function StripBack(s: string): string {
    if s != "" && s[|s| - 1] == '\r' then StripBack(s[..|s| - 1]) else s
  }

  datatype Entry = Entry(name: string, kind: string)

  /** The type a record declares, if it declares one. */
  function EntryOf(record: string): Option<Entry> {
    var r := StripBack(StripFront(record));
    var eq := FirstIndex(r, '=');
    if r == "" || r[0] == '#' || eq == |r| then None
    else if '.' in r[..eq] || r[eq + 1..] !in KINDS then None
    else Some(Entry(r[..eq], r[eq + 1..]))
  }

  /** Adds a record's type unless the name is taken. */
  function Emplace(m: map<string, string>, record: string): map<string, string> {
    match EntryOf(record)
    case None => m
    case Some(e) => if e.name in m then m else m[e.name := e.kind]
  }

  function EmplaceAll(m: map<string, string>, records: seq<string>): map<string, string>
    decreases |records|
  {
    if records == [] then m else EmplaceAll(Emplace(m, records[0]), records[1..])
  }

  function Parsed(tk: string): map<string, string> {
    EmplaceAll(map[], Records(tk))
  }

  // ------------------------------------------------------------ the parser

  function ParsedFrom(m: map<string, string>, tk: string, pos: nat): map<string, string> {
    if pos < |tk| then EmplaceAll(m, Records(tk[pos..])) else m
  }

  lemma EmplaceFrom(m: map<string, string>, tk: string, pos: nat, end: nat)
    requires pos < |tk| && pos <= end <= |tk| && (end < |tk| ==> IsSep(tk[end]))
    requires forall i :: pos <= i < end ==> !IsSep(tk[i])
    ensures ParsedFrom(m, tk, pos) == ParsedFrom(Emplace(m, tk[pos..end]), tk, end + 1)
  {
    RecordsFrom(tk, pos, end);
    var rs := Records(tk[pos..]);
    assert rs[0] == tk[pos..end];
    assert rs[1..] == if end + 1 < |tk| then Records(tk[end + 1..]) else [];
    var m' := Emplace(m, tk[pos..end]);
    assert EmplaceAll(m, rs) == EmplaceAll(m', rs[1..]);
    assert EmplaceAll(m', []) == m';
  }

  method FindSep(tk: string, pos: nat) returns (end: nat)
    requires pos <= |tk|
    ensures pos <= end <= |tk| && (end < |tk| ==> IsSep(tk[end]))
    ensures forall i :: pos <= i < end ==> !IsSep(tk[i])
  {
    end := pos;
    while end < |tk| && !IsSep(tk[end])
      invariant pos <= end <= |tk|
      invariant forall i :: pos <= i < end ==> !IsSep(tk[i])
    {
      end := end + 1;
    }
  }

  method ParseTkDump(tk: string) returns (out: map<string, string>)
    ensures out == Parsed(tk)
  {
    out := map[];
    var pos: nat := 0;
    assert tk[0..] == tk;
    while pos < |tk|
      invariant ParsedFrom(out, tk, pos) == ParsedFrom(map[], tk, 0)
    {
      out, pos := ParseRecord(out, tk, pos);
    }
  }

  /** One turn of the loop: cuts the next record off and files it. */
  method ParseRecord(m: map<string, string>, tk: string, pos: nat) returns (out: map<string, string>, next: nat)
    requires pos < |tk|
    ensures pos < next && ParsedFrom(out, tk, next) == ParsedFrom(m, tk, pos)
  {
    var end := FindSep(tk, pos);
    EmplaceFrom(m, tk, pos, end);
    next := end + 1;
    out := EmplaceRecord(m, tk[pos..end]);
  }

  /** Strips a record and files its type. */
  method EmplaceRecord(m: map<string, string>, record: string) returns (out: map<string, string>)
    ensures out == Emplace(m, record)
  {
    out := m;
    var rec := record;
    while rec != "" && (rec[0] == '*' || rec[0] == '\r')
      invariant StripFront(rec) == StripFront(record)
      decreases |rec|
    {
      rec := rec[1..];
    }
    ghost var front := rec;
    while rec != "" && rec[|rec| - 1] == '\r'
      invariant StripBack(rec) == StripBack(front)
      decreases |rec|
    {
      rec := rec[..|rec| - 1];
    }
    if rec == "" || rec[0] == '#' {
      return;
    }
    var eq := FirstIndex(rec, '=');
    if eq == |rec| {
      return;
    }
    var name, kind := rec[..eq], rec[eq + 1..];
    if '.' in name || kind !in KINDS {
      return;
    }
    if name !in out {
      out := out[name := kind];
    }
  }

  lemma NextSepIs(s: string, k: nat)
    requires k <= |s| && (k < |s| ==> IsSep(s[k]))
    requires forall i :: 0 <= i < k ==> !IsSep(s[i])
    ensures NextSep(s) == k
  {
  }

  lemma RecordsFrom(tk: string, pos: nat, end: nat)
    requires pos < |tk| && pos <= end <= |tk| && (end < |tk| ==> IsSep(tk[end]))
    requires forall i :: pos <= i < end ==> !IsSep(tk[i])
    ensures Records(tk[pos..]) == [tk[pos..end]] + if end + 1 < |tk| then Records(tk[end + 1..]) else []
  {
    var s := tk[pos..];
    NextSepIs(s, end - pos);
    assert s[..end - pos] == tk[pos..end];
    if end < |tk| { assert s[end - pos + 1..] == tk[end + 1..]; }
  }

  // ------------------------------------------------------------ the meaning, declaratively

  /** Record `i` declares `name` as `kind`, and no record before it declares `name`. */
  ghost predicate FirstDeclaration(records: seq<string>, i: nat, name: string, kind: string) {
    && i < |records| && EntryOf(records[i]) == Some(Entry(name, kind))
    && forall j :: 0 <= j < i && EntryOf(records[j]).Some? ==> EntryOf(records[j]).value.name != name
  }

  predicate Maps(m: map<string, string>, name: string, kind: string) {
    name in m && m[name] == kind
  }

  ghost predicate Declares(records: seq<string>, name: string, kind: string) {
    exists i: nat :: FirstDeclaration(records, i, name, kind)
  }

  lemma {:induction false} EmplaceAllMeans(m: map<string, string>, records: seq<string>, name: string, kind: string)
    ensures name in m ==> (Maps(EmplaceAll(m, records), name, kind) <==> Maps(m, name, kind))
    ensures name !in m ==> (Maps(EmplaceAll(m, records), name, kind) <==> Declares(records, name, kind))
    decreases |records|
  {
    if records == [] {
    } else {
      var m', rest := Emplace(m, records[0]), records[1..];
      EmplaceAllMeans(m', rest, name, kind);
      if name !in m {
        if name in m' {
          FirstRecordDeclares(records, name, kind);
        } else {
          LaterRecordDeclares(records, name, kind);
        }
      }
    }
  }

  lemma FirstRecordDeclares(records: seq<string>, name: string, kind: string)
    requires records != [] && EntryOf(records[0]).Some? && EntryOf(records[0]).value.name == name
    ensures Declares(records, name, kind) <==> EntryOf(records[0]).value.kind == kind
  {
    assert FirstDeclaration(records, 0, name, EntryOf(records[0]).value.kind);
  }

  lemma LaterRecordDeclares(records: seq<string>, name: string, kind: string)
    requires records != [] && (EntryOf(records[0]).Some? ==> EntryOf(records[0]).value.name != name)
    ensures Declares(records, name, kind) <==> Declares(records[1..], name, kind)
  {
    if i: nat :| FirstDeclaration(records, i, name, kind) {
      assert FirstDeclaration(records[1..], i - 1, name, kind) by {
        assert forall j :: 0 <= j < i - 1 ==> records[1..][j] == records[j + 1];
      }
    }
    if i: nat :| FirstDeclaration(records[1..], i, name, kind) {
      forall j | 0 <= j < i + 1 && EntryOf(records[j]).Some?
        ensures EntryOf(records[j]).value.name != name
      {
        if j > 0 { assert records[j] == records[1..][j - 1]; }
      }
      assert FirstDeclaration(records, i + 1, name, kind);
    }
  }

  /** The map holds `name` with `kind` exactly if that is the first declaration of `name` in the dump. */
  lemma ParsedMeans(tk: string, name: string, kind: string)
    ensures Maps(Parsed(tk), name, kind) <==> Declares(Records(tk), name, kind)
  {
    EmplaceAllMeans(map[], Records(tk), name, kind);
  }

  // ------------------------------------------------------------ records, in terms of their characters

  predicate IsKind(kind: string) {
    kind in {"atomic", "struct", "union", "enum", "typedef", "func", "type"}
  }

  /** What may stand in front of a record: markers of sdb, and CRs. */
  predicate IsFront(front: string) {
    forall i :: 0 <= i < |front| ==> front[i] == '*' || front[i] == '\r'
  }

  predicate IsBack(back: string) {
    forall i :: 0 <= i < |back| ==> back[i] == '\r'
  }

  /** Nothing at its ends would be stripped. */
  predicate IsBare(body: string) {
    body != "" ==> body[0] != '*' && body[0] != '\r' && body[|body| - 1] != '\r'
  }

  lemma {:induction false} FrontStripped(front: string, rest: string)
    requires IsFront(front) && (rest != "" ==> rest[0] != '*' && rest[0] != '\r')
    ensures StripFront(front + rest) == rest
    decreases |front|
  {
    if front == "" {
      assert front + rest == rest;
    } else {
      FrontStripped(front[1..], rest);
      assert (front + rest)[1..] == front[1..] + rest;
    }
  }

  lemma {:induction false} BackStripped(rest: string, back: string)
    requires IsBack(back) && (rest != "" ==> rest[|rest| - 1] != '\r')
    ensures StripBack(rest + back) == rest
    decreases |back|
  {
    if back == "" {
      assert rest + back == rest;
    } else {
      var n := |back| - 1;
      BackStripped(rest, back[..n]);
      assert (rest + back)[..|rest| + n] == rest + back[..n];
    }
  }

  lemma Stripped(front: string, body: string, back: string)
    requires IsFront(front) && IsBack(back) && IsBare(body)
    ensures StripBack(StripFront(front + body + back)) == body
  {
    assert front + body + back == front + (body + back);
    if body == "" {
      assert front + (body + back) == (front + back) + "";
      FrontStripped(front + back, "");
    } else {
      FrontStripped(front, body + back);
      BackStripped(body, back);
    }
  }

  /** Stripping cuts a front and a back off. */
  lemma {:induction false} FrontCut(s: string) returns (front: string)
    ensures IsFront(front) && s == front + StripFront(s)
    ensures var rest := StripFront(s); rest != "" ==> rest[0] != '*' && rest[0] != '\r'
    decreases |s|
  {
    front := "";
    if s != "" && (s[0] == '*' || s[0] == '\r') {
      var f := FrontCut(s[1..]);
      front := [s[0]] + f;
      assert s == [s[0]] + s[1..];
    }
  }

  lemma {:induction false} BackCut(s: string) returns (back: string)
    ensures IsBack(back) && s == StripBack(s) + back
    ensures var rest := StripBack(s); rest != "" ==> rest[|rest| - 1] != '\r'
    ensures StripBack(s) <= s
    decreases |s|
  {
    back := "";
    if s != "" && s[|s| - 1] == '\r' {
      var n := |s| - 1;
      var b := BackCut(s[..n]);
      back := b + [s[n]];
      assert s == s[..n] + [s[n]];
    }
  }

  lemma Cut(record: string) returns (front: string, body: string, back: string)
    ensures IsFront(front) && IsBack(back) && IsBare(body) && record == front + body + back
    ensures body == StripBack(StripFront(record))
  {
    front := FrontCut(record);
    back := BackCut(StripFront(record));
    body := StripBack(StripFront(record));
    assert record == front + (body + back);
  }

  /** The bare record: a name without `=` and `.`, the first `=`, and a known kind. */
  predicate IsDeclaration(body: string, name: string, kind: string) {
    && body == name + "=" + kind && body[0] != '#'
    && '=' !in name && '.' !in name && IsKind(kind)
  }

  /** A member of a type, or of no known kind. */
  predicate DeclaresNothing(body: string, name: string, kind: string) {
    body == name + "=" + kind && '=' !in name && ('.' in name || !IsKind(kind))
  }

  /** A bare record that declares no type. */
  ghost predicate IsSilent(body: string) {
    || body == "" || body[0] == '#' || '=' !in body
    || exists name, kind :: DeclaresNothing(body, name, kind)
  }

  lemma EqualsAt(name: string, kind: string)
    requires '=' !in name
    ensures var body := name + "=" + kind;
            FirstIndex(body, '=') == |name| && body[..|name|] == name && body[|name| + 1..] == kind
  {
    FirstIndexIs(name + "=" + kind, '=', |name|);
  }

  lemma DeclarationRead(record: string, name: string, kind: string)
    requires IsDeclaration(StripBack(StripFront(record)), name, kind)
    ensures EntryOf(record) == Some(Entry(name, kind))
  {
    EqualsAt(name, kind);
  }

  lemma SilentRead(record: string)
    requires IsSilent(StripBack(StripFront(record)))
    ensures EntryOf(record) == None
  {
    var body := StripBack(StripFront(record));
    if body != "" && body[0] != '#' {
      if '=' in body {
        var name, kind :| DeclaresNothing(body, name, kind);
        EqualsAt(name, kind);
      } else {
        FirstIndexIs(body, '=', |body|);
      }
    }
  }

  lemma EntryParts(record: string, name: string, kind: string)
    requires EntryOf(record) == Some(Entry(name, kind))
    ensures IsDeclaration(StripBack(StripFront(record)), name, kind)
  {
    var r := StripBack(StripFront(record));
    assert r == name + "=" + kind;
  }

  predicate IsRecord(record: string, front: string, body: string, back: string) {
    record == front + body + back && IsFront(front) && IsBack(back) && IsBare(body)
  }

  /** A record declares a type exactly if it is a front, a declaration that nothing is stripped from, and a back. */
  lemma EntryOfMeans(record: string, name: string, kind: string)
    ensures EntryOf(record) == Some(Entry(name, kind)) <==>
            exists front, body, back :: IsRecord(record, front, body, back) && IsDeclaration(body, name, kind)
  {
    if EntryOf(record) == Some(Entry(name, kind)) {
      var front, body, back := Cut(record);
      EntryParts(record, name, kind);
      assert IsRecord(record, front, body, back) && IsDeclaration(body, name, kind);
    }
    if front, body, back :| IsRecord(record, front, body, back) && IsDeclaration(body, name, kind) {
      Stripped(front, body, back);
      DeclarationRead(record, name, kind);
    }
  }

  // ------------------------------------------------------------ printing and parsing back

  /** A line of a dump, with what may surround it. */
  datatype Line =
    | Declares(front: string, entry: Entry, back: string)
    | Silent(front: string, body: string, back: string)

  function BodyOf(line: Line): string {
    match line
    case Declares(_, e, _) => e.name + "=" + e.kind
    case Silent(_, body, _) => body
  }

  function TextOf(line: Line): string {
    line.front + BodyOf(line) + line.back
  }

  ghost predicate IsLine(line: Line) {
    && IsFront(line.front) && IsBack(line.back) && IsBare(BodyOf(line))
    && '\n' !in BodyOf(line) && ' ' !in BodyOf(line)
    && match line
       case Declares(_, e, _) => IsDeclaration(BodyOf(line), e.name, e.kind)
       case Silent(_, body, _) => IsSilent(body)
  }

  datatype Separator = Newline | CrLf | Space | End

  function SeparatorText(sep: Separator): string {
    match sep
    case Newline => "\n"
    case CrLf => "\r\n"
    case Space => " "
    case End => ""
  }

  /** Each line with its own separator; only the last may go without. */
  function Printed(lines: seq<Line>, seps: seq<Separator>): string
    requires |lines| == |seps|
  {
    if lines == [] then "" else TextOf(lines[0]) + SeparatorText(seps[0]) + Printed(lines[1..], seps[1..])
  }

  ghost predicate CanPrint(lines: seq<Line>, seps: seq<Separator>) {
    && |lines| == |seps|
    && (forall i :: 0 <= i < |lines| ==> IsLine(lines[i]))
    && (forall i :: 0 <= i < |seps| && seps[i] == End ==> i == |seps| - 1 && TextOf(lines[i]) != "")
  }

  /** Line `i` declares the type, and no line before it one of that name. */
  predicate DeclaredAt(lines: seq<Line>, i: nat, name: string, kind: string) {
    && i < |lines| && lines[i].Declares? && lines[i].entry == Entry(name, kind)
    && forall j :: 0 <= j < i && lines[j].Declares? ==> lines[j].entry.name != name
  }

  /** The map has the types that the lines declare, each as the first line of its name says. */
  ghost predicate Lists(lines: seq<Line>, m: map<string, string>) {
    forall name, kind :: Maps(m, name, kind) <==> exists i: nat :: DeclaredAt(lines, i, name, kind)
  }

  /** What the parser gets to see of a line: the CR of a CR LF stays with it. */
  function RawText(line: Line, sep: Separator): string {
    TextOf(line) + if sep == CrLf then "\r" else ""
  }

  lemma LineReadsBack(line: Line, sep: Separator)
    requires IsLine(line)
    ensures EntryOf(RawText(line, sep)) == if line.Declares? then Some(line.entry) else None
  {
    var back := line.back + if sep == CrLf then "\r" else "";
    assert RawText(line, sep) == line.front + BodyOf(line) + back;
    Stripped(line.front, BodyOf(line), back);
    if line.Declares? {
      DeclarationRead(RawText(line, sep), line.entry.name, line.entry.kind);
    } else {
      SilentRead(RawText(line, sep));
    }
  }

  lemma NoSeparatorInside(line: Line, sep: Separator)
    requires IsLine(line)
    ensures var raw := RawText(line, sep); forall i :: 0 <= i < |raw| ==> !IsSep(raw[i])
  {
    var raw := RawText(line, sep);
    forall i | 0 <= i < |raw|
      ensures !IsSep(raw[i])
    {
      var n, m := |line.front|, |line.front| + |BodyOf(line)|;
      if n <= i < m { assert raw[i] == BodyOf(line)[i - n] && raw[i] in BodyOf(line); }
    }
  }

  /** The first piece of what is printed is the first line. */
  lemma PrintedFirst(line: Line, sep: Separator, tail: string)
    requires IsLine(line) && (sep == End ==> tail == "" && TextOf(line) != "")
    ensures Records(TextOf(line) + SeparatorText(sep) + tail) == [RawText(line, sep)] + Records(tail)
  {
    var raw := RawText(line, sep);
    var s := TextOf(line) + SeparatorText(sep) + tail;
    NoSeparatorInside(line, sep);
    if sep == End {
      assert s == raw;
      NextSepIs(s, |s|);
    } else {
      var c := if sep == Space then ' ' else '\n';
      assert s == raw + [c] + tail;
      NextSepIs(s, |raw|);
      assert s[..|raw|] == raw && s[|raw| + 1..] == tail;
    }
  }

  lemma {:induction false} PrintedRecords(lines: seq<Line>, seps: seq<Separator>)
    requires CanPrint(lines, seps)
    ensures var rs := Records(Printed(lines, seps));
            && |rs| == |lines|
            && forall i :: 0 <= i < |rs| ==>
                 EntryOf(rs[i]) == if lines[i].Declares? then Some(lines[i].entry) else None
    decreases |lines|
  {
    if lines == [] {
    } else {
      var tail := Printed(lines[1..], seps[1..]);
      PrintedRecords(lines[1..], seps[1..]);
      LineReadsBack(lines[0], seps[0]);
      PrintedFirst(lines[0], seps[0], tail);
    }
  }

  lemma SameDeclarations(lines: seq<Line>, rs: seq<string>, name: string, kind: string)
    requires |rs| == |lines|
    requires forall i :: 0 <= i < |rs| ==> EntryOf(rs[i]) == if lines[i].Declares? then Some(lines[i].entry) else None
    ensures Declares(rs, name, kind) <==> exists i: nat :: DeclaredAt(lines, i, name, kind)
  {
    forall i: nat
      ensures FirstDeclaration(rs, i, name, kind) <==> DeclaredAt(lines, i, name, kind)
    {
    }
  }

  /**
  Printing a map of types in any order, with any mix of separators, with markers and CRs
  around the records, repetitions of names behind their first record and records that
  declare nothing in between, and parsing it gives the map back.
  */
  lemma PrintedParsesBack(m: map<string, string>, lines: seq<Line>, seps: seq<Separator>)
    requires CanPrint(lines, seps) && Lists(lines, m)
    ensures Parsed(Printed(lines, seps)) == m
  {
    var tk := Printed(lines, seps);
    var rs := Records(tk);
    PrintedRecords(lines, seps);
    forall name, kind
      ensures Maps(Parsed(tk), name, kind) <==> Maps(m, name, kind)
    {
      ParsedMeans(tk, name, kind);
      SameDeclarations(lines, rs, name, kind);
    }
    SameMaps(Parsed(tk), m);
  }

  lemma SameMaps(a: map<string, string>, b: map<string, string>)
    requires forall name, kind :: Maps(a, name, kind) <==> Maps(b, name, kind)
    ensures a == b
  {
    forall name
      ensures name in a <==> name in b
      ensures name in a ==> a[name] == b[name]
    {
      if name in a { assert Maps(a, name, a[name]); }
      if name in b { assert Maps(b, name, b[name]); }
    }
  }
}
