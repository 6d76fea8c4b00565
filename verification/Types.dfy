/**
The tables `types` and `types_members`. Both are built from the same replies, each on its
own: the first adds up a type's size, the second lists its members.
*/
module Types {
  import opened Json
  import opened TkDump
  import opened Sequences
  import opened Sorting

  datatype TypeRow = TypeRow(name: string, kind: string, size: int, format: string)

  datatype MemberRow = MemberRow(
    typeName: string, parentKind: string, memberName: string, memberType: string,
    offset: int, size: int, arraySize: int, value: int)

  // ------------------------------------------------------------ what the replies say

  predicate IsAggregate(kind: string) {
    kind == "struct" || kind == "union"
  }

  function DefinitionOf(be: Backend, name: string, kind: string): Json {
    be.cmdJson((if kind == "struct" then "tsj " else "tuj ") + name)
  }

  function Fields(j: Json): seq<Json> {
    match Find(j, "fields") case Some(Arr(items)) => items case _ => []
  }

  /** Counts below one count as one. */
  function ArraySize(f: Json): (n: int)
    ensures n >= 1
  {
    var n := I64(f, "array_size", 1);
    if n <= 0 then 1 else n
  }

  function FieldSize(f: Json): int {
    I64(f, "size", 0) * ArraySize(f)
  }

  function Max(a: int, b: int): int {
    if b > a then b else a
  }

  function TotalSize(fields: seq<Json>): int {
    if fields == [] then 0 else TotalSize(fields[..|fields| - 1]) + FieldSize(fields[|fields| - 1])
  }

  function LargestSize(fields: seq<Json>): int {
    if fields == [] then 0 else Max(LargestSize(fields[..|fields| - 1]), FieldSize(fields[|fields| - 1]))
  }

  /** The size of a struct or union; -1 when there is no definition to read. */
  function AggregateSize(be: Backend, name: string, kind: string): int {
    var j := DefinitionOf(be, name, kind);
    if !j.Obj? then -1
    else if kind == "struct" then TotalSize(Fields(j))
    else LargestSize(Fields(j))
  }

  function MemberOf(be: Backend, name: string, kind: string, f: Json): MemberRow {
    MemberRow(name, kind, Text(be, f, "name", ""), Text(be, f, "type", ""),
              I64(f, "offset", 0), I64(f, "size", 0), ArraySize(f), 0)
  }

  function MembersOf(be: Backend, name: string, kind: string): (r: seq<MemberRow>)
    ensures forall i :: 0 <= i < |r| ==> r[i].typeName == name
  {
    var fields := Fields(DefinitionOf(be, name, kind));
    seq(|fields|, i requires 0 <= i < |fields| => MemberOf(be, name, kind, fields[i]))
  }

  function EnumMember(name: string, key: string, value: Json): MemberRow {
    MemberRow(name, "enum", key, "", 0, 0, 0, if value.Number? then ToInt64(value.n) else 0)
  }

  /** `row` is the row of a constant of the enum `name`. */
  predicate IsConstant(be: Backend, name: string, row: MemberRow) {
    match Find(be.cmdJson("tej " + name), "values")
    case Some(Obj(values)) =>
      row.memberName in values && row == EnumMember(name, row.memberName, values[row.memberName])
    case _ => false
  }

  /**
  The rows of one type, in some order: a struct's or union's fields, each constant of an
  enum once, nothing for other kinds.
  */
  ghost predicate RowsOf(be: Backend, name: string, kind: string, rows: seq<MemberRow>) {
    if IsAggregate(kind) then multiset(rows) == multiset(MembersOf(be, name, kind))
    else if kind == "enum" then
      forall row :: multiset(rows)[row] == if IsConstant(be, name, row) then 1 else 0
    else rows == []
  }

  // ------------------------------------------------------------ atomic types

  /** The keys of an object are visited in their order. */
  function LeastKey(keys: set<string>): (k: string)
    requires keys != {}
    ensures k in keys && forall o :: o in keys ==> !LexLess(o, k)
  {
    LeastExists(keys);
    LeastIsUnique(keys);
    var k :| k in keys && forall o :: o in keys ==> !LexLess(o, k);
    k
  }

  lemma {:induction false} LeastExists(keys: set<string>)
    requires keys != {}
    ensures exists k :: k in keys && forall o :: o in keys ==> !LexLess(o, k)
    decreases |keys|
  {
    var x :| x in keys;
    var rest := keys - {x};
    LexIsTotal(x, x);
    if rest == {} {
      assert keys == {x};
    } else {
      LeastExists(rest);
      var k :| k in rest && forall o :: o in rest ==> !LexLess(o, k);
      if LexLess(x, k) {
        LexIsTotal(x, k);
        forall o | o in keys
          ensures !LexLess(o, x)
        {
          if o != x { LexIsTransitive(x, k, o); }
        }
      }
    }
  }

  lemma LeastIsUnique(keys: set<string>)
    ensures forall j, k :: j in keys && k in keys && !LexLess(j, k) && !LexLess(k, j) ==> j == k
  {
    forall j, k | j in keys && k in keys && !LexLess(j, k) && !LexLess(k, j)
      ensures j == k
    {
      LexIsTotal(j, k);
    }
  }

  function KeysInOrder(keys: set<string>): (r: seq<string>)
    ensures forall k :: k in r <==> k in keys
    ensures forall i, j :: 0 <= i < j < |r| ==> LexLess(r[i], r[j])
    decreases |keys|
  {
    if keys == {} then []
    else
      var k := LeastKey(keys);
      var rest := KeysInOrder(keys - {k});
      LeastIsFirst(keys, k, rest);
      [k] + rest
  }

  lemma LeastIsFirst(keys: set<string>, k: string, rest: seq<string>)
    requires k in keys && forall o :: o in keys ==> !LexLess(o, k)
    requires forall o :: o in rest <==> o in keys - {k}
    ensures forall i :: 0 <= i < |rest| ==> LexLess(k, rest[i])
  {
    forall i | 0 <= i < |rest|
      ensures LexLess(k, rest[i])
    {
      assert rest[i] in rest;
      LexIsTotal(k, rest[i]);
    }
  }

  function ValueAt(fields: map<string, Json>, keys: seq<string>, i: nat): Json
    requires i < |keys| && forall k :: k in keys <==> k in fields.Keys
  {
    assert keys[i] in keys;
    fields[keys[i]]
  }

  /** What a loop over `j` visits: the one value that is neither null nor a container is its own element. */
  function Elements(j: Json): seq<Json> {
    match j
    case Null => []
    case Arr(items) => items
    case Obj(fields) =>
      var keys := KeysInOrder(fields.Keys);
      seq(|keys|, i requires 0 <= i < |keys| => ValueAt(fields, keys, i))
    case _ => [j]
  }

  function AtomicRecords(be: Backend): seq<Json> {
    match Find(be.cmdJson("tj"), "types")
    case Some(types) => Elements(types)
    case None => []
  }

  function AtomicName(be: Backend, record: Json): string {
    Text(be, record, "type", "")
  }

  /** The last record of `name` is the one that counts. */
  function LastRecord(be: Backend, records: seq<Json>, name: string): (r: Option<Json>)
    ensures r.None? ==> forall i :: 0 <= i < |records| ==> AtomicName(be, records[i]) != name
    ensures r.Some? ==> exists n ::
              && 0 <= n < |records| && records[n] == r.value && AtomicName(be, records[n]) == name
              && forall m :: n < m < |records| ==> AtomicName(be, records[m]) != name
  {
    if records == [] then None
    else
      var n := |records| - 1;
      if AtomicName(be, records[n]) == name then Some(records[n]) else LastRecord(be, records[..n], name)
  }

  /** The row of a type: its size and format as radare2 knows them, -1 and nothing where it does not. */
  function RowOf(be: Backend, name: string, kind: string): TypeRow {
    if IsAggregate(kind) then
      TypeRow(name, kind, AggregateSize(be, name, kind), Text(be, DefinitionOf(be, name, kind), "format", ""))
    else if kind == "atomic" || kind == "type" then
      match LastRecord(be, AtomicRecords(be), name)
      case Some(record) => TypeRow(name, kind, I64(record, "size", -1), Text(be, record, "format", ""))
      case None => TypeRow(name, kind, -1, "")
    else TypeRow(name, kind, -1, "")
  }

  // ------------------------------------------------------------ the types table

  method ReadAggregate(be: Backend, name: string, kind: string) returns (row: TypeRow)
    requires IsAggregate(kind)
    ensures row == RowOf(be, name, kind)
  {
    row := TypeRow(name, kind, -1, "");
    var j := DefinitionOf(be, name, kind);
    if j.Obj? {
      var total, maxField := 0, 0;
      if "fields" in j.fields && j.fields["fields"].Arr? {
        var fields := j.fields["fields"].items;
        for n := 0 to |fields|
          invariant kind == "struct" ==> total == TotalSize(fields[..n])
          invariant kind != "struct" ==> maxField == LargestSize(fields[..n])
        {
          assert fields[..n + 1][..n] == fields[..n];
          var size := I64(fields[n], "size", 0);
          var count := I64(fields[n], "array_size", 1);
          if count <= 0 { count := 1; }
          var fieldSize := size * count;
          if kind == "struct" { total := total + fieldSize; }
          else if fieldSize > maxField { maxField := fieldSize; }
        }
        assert fields[..|fields|] == fields;
      }
      row := TypeRow(name, kind, if kind == "struct" then total else maxField, Text(be, j, "format", ""));
    }
  }

  datatype AtomicInfo = AtomicInfo(size: int, format: string)

  function InfoOf(be: Backend, record: Json): AtomicInfo {
    AtomicInfo(I64(record, "size", -1), Text(be, record, "format", ""))
  }

  /** `info` has what the last record of each name says, and nothing else. */
  ghost predicate Describes(be: Backend, info: map<string, AtomicInfo>, records: seq<Json>) {
    forall name ::
      match LastRecord(be, records, name)
      case Some(r) => name in info && info[name] == InfoOf(be, r)
      case None => name !in info
  }

  lemma DescribesOneMore(be: Backend, info: map<string, AtomicInfo>, records: seq<Json>, n: nat)
    requires n < |records| && Describes(be, info, records[..n])
    ensures Describes(be, info[AtomicName(be, records[n]) := InfoOf(be, records[n])], records[..n + 1])
  {
    assert records[..n + 1][..n] == records[..n];
  }

  /** Sizes and formats of the atomic types; a later record for a name replaces an earlier one. */
  method ReadAtomics(be: Backend) returns (info: map<string, AtomicInfo>)
    ensures Describes(be, info, AtomicRecords(be))
  {
    info := map[];
    var records := AtomicRecords(be);
    for n := 0 to |records|
      invariant Describes(be, info, records[..n])
    {
      DescribesOneMore(be, info, records, n);
      info := info[Text(be, records[n], "type", "") := InfoOf(be, records[n])];
    }
    assert records[..|records|] == records;
  }

  predicate TypeLess(a: TypeRow, b: TypeRow) {
    LexLess(a.name, b.name)
  }

  lemma TypeLessIsOrder()
    ensures IsOrder(TypeLess)
  {
    forall a: TypeRow, b: TypeRow, c: TypeRow | !TypeLess(b, a) && !TypeLess(c, b)
      ensures !TypeLess(c, a)
    {
      LexIsTransitive(a.name, b.name, c.name);
    }
    forall a: TypeRow, b: TypeRow | TypeLess(a, b)
      ensures !TypeLess(b, a)
    {
      LexIsTotal(a.name, b.name);
    }
  }

  ghost function Named(rows: seq<TypeRow>, name: string): seq<TypeRow> {
    Where(rows, (row: TypeRow) => row.name == name)
  }

  /** Among `rows` are exactly one row for each type that is done, and none under any other name. */
  ghost predicate TypesBuilt(be: Backend, kinds: map<string, string>, todo: set<string>, rows: seq<TypeRow>) {
    forall name :: Named(rows, name) == if name in kinds && name !in todo then [RowOf(be, name, kinds[name])] else []
  }

  /** One row for each type of the dump, in the order of the names. */
  ghost predicate TypesTable(be: Backend, rows: seq<TypeRow>) {
    Ordered(rows, TypeLess) && TypesBuilt(be, Parsed(be.cmd("tk*")), {}, rows)
  }

  // ------------------------------------------------------------ the members table

  predicate MemberLess(a: MemberRow, b: MemberRow) {
    if a.typeName != b.typeName then LexLess(a.typeName, b.typeName) else a.offset < b.offset
  }

  lemma MemberLessIsOrder()
    ensures IsOrder(MemberLess)
  {
    forall a: MemberRow, b: MemberRow, c: MemberRow | !MemberLess(b, a) && !MemberLess(c, b)
      ensures !MemberLess(c, a)
    {
      LexIsTotal(a.typeName, b.typeName);
      LexIsTotal(b.typeName, c.typeName);
      LexIsTotal(a.typeName, c.typeName);
      LexIsTransitive(a.typeName, b.typeName, c.typeName);
    }
    forall a: MemberRow, b: MemberRow | MemberLess(a, b)
      ensures !MemberLess(b, a)
    {
      LexIsTotal(a.typeName, b.typeName);
    }
  }

  /** `SELECT * FROM types_members WHERE type_name = name`. */
  ghost function Of(rows: seq<MemberRow>, name: string): seq<MemberRow> {
    Where(rows, (row: MemberRow) => row.typeName == name)
  }

  /** Every type that is done has exactly its rows, and no other name has any. */
  ghost predicate MembersBuilt(be: Backend, kinds: map<string, string>, todo: set<string>, rows: seq<MemberRow>) {
    forall name ::
      if name in kinds && name !in todo then RowsOf(be, name, kinds[name], Of(rows, name)) else Of(rows, name) == []
  }

  /** Every type has exactly its rows, in the order of the names and then the offsets. */
  ghost predicate MembersTable(be: Backend, rows: seq<MemberRow>) {
    Ordered(rows, MemberLess) && MembersBuilt(be, Parsed(be.cmd("tk*")), {}, rows)
  }

  // ------------------------------------------------------------ building both

  method ReadMembers(be: Backend, name: string, kind: string) returns (rows: seq<MemberRow>)
    ensures rows == MembersOf(be, name, kind)
  {
    rows := [];
    var j := DefinitionOf(be, name, kind);
    if !j.Obj? || "fields" !in j.fields || !j.fields["fields"].Arr? {
      return;
    }
    var fields := j.fields["fields"].items;
    for n := 0 to |fields|
      invariant rows == MembersOf(be, name, kind)[..n]
    {
      var f := fields[n];
      var count := I64(f, "array_size", 1);
      if count <= 0 { count := 1; }
      rows := rows + [MemberRow(name, kind, Text(be, f, "name", ""), Text(be, f, "type", ""),
                                I64(f, "offset", 0), I64(f, "size", 0), count, 0)];
    }
  }

  /** One row for each constant of an enum. */
  method ReadEnum(be: Backend, name: string) returns (rows: seq<MemberRow>)
    ensures RowsOf(be, name, "enum", rows)
    ensures forall i :: 0 <= i < |rows| ==> rows[i].typeName == name
  {
    rows := [];
    match Find(be.cmdJson("tej " + name), "values") {
      case Some(Obj(values)) =>
        var keys := values.Keys;
        while keys != {}
          invariant keys <= values.Keys
          invariant forall i :: 0 <= i < |rows| ==> rows[i].typeName == name
          invariant forall row :: multiset(rows)[row] ==
                      if row.memberName !in keys && IsConstant(be, name, row) then 1 else 0
          decreases keys
        {
          var key :| key in keys;
          keys := keys - {key};
          rows := rows + [EnumMember(name, key, values[key])];
        }
      case _ =>
    }
  }

  /** The rows of one type; kinds other than these three have none. */
  method ReadRows(be: Backend, name: string, kind: string) returns (rows: seq<MemberRow>)
    ensures RowsOf(be, name, kind, rows)
    ensures forall i :: 0 <= i < |rows| ==> rows[i].typeName == name
  {
    if kind != "struct" && kind != "union" && kind != "enum" {
      rows := [];
    } else if kind == "enum" {
      rows := ReadEnum(be, name);
    } else {
      rows := ReadMembers(be, name, kind);
    }
  }

  lemma OfAppend(rows: seq<MemberRow>, chunk: seq<MemberRow>, name: string, n: string)
    requires forall i :: 0 <= i < |chunk| ==> chunk[i].typeName == name
    ensures Of(rows + chunk, n) == Of(rows, n) + if n == name then chunk else []
  {
    WhereAppend(rows, chunk, (row: MemberRow) => row.typeName == n);
    WhereAllOrNone(chunk, (row: MemberRow) => row.typeName == n, n == name);
  }

  lemma MembersBuiltOne(
    be: Backend, kinds: map<string, string>, todo: set<string>, rows: seq<MemberRow>, name: string,
    chunk: seq<MemberRow>)
    requires MembersBuilt(be, kinds, todo, rows) && name in todo && name in kinds
    requires RowsOf(be, name, kinds[name], chunk) && forall i :: 0 <= i < |chunk| ==> chunk[i].typeName == name
    ensures MembersBuilt(be, kinds, todo - {name}, rows + chunk)
  {
    forall n: string
      ensures if n in kinds && n !in todo - {name} then RowsOf(be, n, kinds[n], Of(rows + chunk, n))
              else Of(rows + chunk, n) == []
    {
      OfAppend(rows, chunk, name, n);
      assert Of(rows + chunk, n) == if n == name then chunk else Of(rows, n);
    }
  }

  lemma RowsOfPermutation(be: Backend, name: string, kind: string, a: seq<MemberRow>, b: seq<MemberRow>)
    requires multiset(a) == multiset(b) && RowsOf(be, name, kind, b)
    ensures RowsOf(be, name, kind, a)
  {
    if b == [] { PermutationOfFew(a, b); }
  }

  lemma MembersBuiltSorted(be: Backend, kinds: map<string, string>, rows: seq<MemberRow>, unsorted: seq<MemberRow>)
    requires multiset(rows) == multiset(unsorted) && MembersBuilt(be, kinds, {}, unsorted)
    ensures MembersBuilt(be, kinds, {}, rows)
  {
    forall n: string
      ensures if n in kinds then RowsOf(be, n, kinds[n], Of(rows, n)) else Of(rows, n) == []
    {
      WherePermutation(rows, unsorted, (row: MemberRow) => row.typeName == n);
      if n in kinds {
        RowsOfPermutation(be, n, kinds[n], Of(rows, n), Of(unsorted, n));
      } else {
        PermutationOfFew(Of(rows, n), Of(unsorted, n));
      }
    }
  }

  /** The types are met in whatever order the hash map holds them. */
  method BuildMembers(be: Backend) returns (rows: seq<MemberRow>)
    ensures MembersTable(be, rows)
  {
    var kinds := ParseTkDump(be.cmd("tk*"));
    var unsorted := [];
    var names := kinds.Keys;
    while names != {}
      invariant names <= kinds.Keys && MembersBuilt(be, kinds, names, unsorted)
      decreases names
    {
      var name :| name in names;
      var chunk := ReadRows(be, name, kinds[name]);
      MembersBuiltOne(be, kinds, names, unsorted, name, chunk);
      unsorted := unsorted + chunk;
      names := names - {name};
    }
    MemberLessIsOrder();
    rows := Sort(unsorted, MemberLess);
    MembersBuiltSorted(be, kinds, rows, unsorted);
  }

  method ReadType(be: Backend, info: map<string, AtomicInfo>, name: string, kind: string) returns (row: TypeRow)
    requires Describes(be, info, AtomicRecords(be))
    ensures row == RowOf(be, name, kind)
  {
    row := TypeRow(name, kind, -1, "");
    if kind == "atomic" || kind == "type" {
      if name in info {
        row := TypeRow(name, kind, info[name].size, info[name].format);
      }
    } else if IsAggregate(kind) {
      row := ReadAggregate(be, name, kind);
    }
  }

  lemma TypesBuiltOne(be: Backend, kinds: map<string, string>, todo: set<string>, rows: seq<TypeRow>, name: string)
    requires TypesBuilt(be, kinds, todo, rows) && name in todo && name in kinds
    ensures TypesBuilt(be, kinds, todo - {name}, rows + [RowOf(be, name, kinds[name])])
  {
    NamedAppend(rows, RowOf(be, name, kinds[name]));
    assert Named(rows, name) == [];
  }

  lemma NamedAppend(rows: seq<TypeRow>, row: TypeRow)
    ensures forall n :: Named(rows + [row], n) == if n == row.name then Named(rows, n) + [row] else Named(rows, n)
  {
    forall n: string
      ensures Named(rows + [row], n) == if n == row.name then Named(rows, n) + [row] else Named(rows, n)
    {
      WhereAppend(rows, [row], (r: TypeRow) => r.name == n);
    }
  }

  lemma TypesBuiltSorted(be: Backend, kinds: map<string, string>, rows: seq<TypeRow>, unsorted: seq<TypeRow>)
    requires multiset(rows) == multiset(unsorted) && TypesBuilt(be, kinds, {}, unsorted)
    ensures TypesBuilt(be, kinds, {}, rows)
  {
    forall n: string
      ensures Named(rows, n) == Named(unsorted, n)
    {
      WherePermutation(rows, unsorted, (r: TypeRow) => r.name == n);
      PermutationOfFew(Named(rows, n), Named(unsorted, n));
    }
  }

  method BuildTypes(be: Backend) returns (rows: seq<TypeRow>)
    ensures TypesTable(be, rows)
  {
    var kinds := ParseTkDump(be.cmd("tk*"));
    var info := ReadAtomics(be);
    var unsorted: seq<TypeRow> := [];
    var names := kinds.Keys;
    while names != {}
      invariant names <= kinds.Keys && TypesBuilt(be, kinds, names, unsorted)
      decreases names
    {
      var name :| name in names;
      var row := ReadType(be, info, name, kinds[name]);
      TypesBuiltOne(be, kinds, names, unsorted, name);
      unsorted := unsorted + [row];
      names := names - {name};
    }
    TypeLessIsOrder();
    rows := Sort(unsorted, TypeLess);
    TypesBuiltSorted(be, kinds, rows, unsorted);
  }

  // ------------------------------------------------------------ the tables agree

  function Bytes(row: MemberRow): int {
    row.size * row.arraySize
  }

  /** `SUM(size * array_size)`, 0 for no rows. */
  function SumOf(rows: seq<MemberRow>): int {
    if rows == [] then 0 else Bytes(rows[0]) + SumOf(rows[1..])
  }

  /** `MAX(size * array_size)`, but not below 0. */
  function MaxOf(rows: seq<MemberRow>): int {
    if rows == [] then 0 else Max(Bytes(rows[0]), MaxOf(rows[1..]))
  }

  lemma {:induction false} SumOfRemove(rows: seq<MemberRow>, k: nat)
    requires k < |rows|
    ensures SumOf(rows) == Bytes(rows[k]) + SumOf(rows[..k] + rows[k + 1..])
    ensures MaxOf(rows) == Max(Bytes(rows[k]), MaxOf(rows[..k] + rows[k + 1..]))
  {
    var rest := rows[..k] + rows[k + 1..];
    if k == 0 {
      assert rest == rows[1..];
    } else {
      SumOfRemove(rows[1..], k - 1);
      assert rest[1..] == rows[1..][..k - 1] + rows[1..][k..];
    }
  }

  /** The first row of `a` can be taken out of `b` as well. */
  lemma TakeOut(a: seq<MemberRow>, b: seq<MemberRow>) returns (k: nat)
    requires multiset(a) == multiset(b) && a != []
    ensures k < |b| && b[k] == a[0]
    ensures multiset(a[1..]) == multiset(b[..k] + b[k + 1..])
  {
    assert a[0] in multiset(a);
    assert a[0] in b;
    k :| k < |b| && b[k] == a[0];
    assert multiset(b[..k] + b[k + 1..]) == multiset(b) - multiset{a[0]} by { MultisetWithout(b, k); }
    assert a == [a[0]] + a[1..];
  }

  /** Sum and maximum do not depend on the order of the rows. */
  lemma {:induction false} AggregatesIgnoreOrder(a: seq<MemberRow>, b: seq<MemberRow>)
    requires multiset(a) == multiset(b)
    ensures SumOf(a) == SumOf(b) && MaxOf(a) == MaxOf(b)
    decreases |a|
  {
    if a == [] {
      assert |multiset(b)| == 0;
    } else {
      var k := TakeOut(a, b);
      AggregatesIgnoreOrder(a[1..], b[..k] + b[k + 1..]);
      SumOfRemove(b, k);
    }
  }

  lemma LastOfAggregates(rows: seq<MemberRow>)
    requires rows != []
    ensures SumOf(rows) == SumOf(rows[..|rows| - 1]) + Bytes(rows[|rows| - 1])
    ensures MaxOf(rows) == Max(MaxOf(rows[..|rows| - 1]), Bytes(rows[|rows| - 1]))
  {
    SumOfRemove(rows, |rows| - 1);
    assert rows[..|rows| - 1] + rows[|rows|..] == rows[..|rows| - 1];
  }

  lemma {:induction false} MembersAddUp(rows: seq<MemberRow>, fields: seq<Json>)
    requires |rows| == |fields| && forall i :: 0 <= i < |rows| ==> Bytes(rows[i]) == FieldSize(fields[i])
    ensures SumOf(rows) == TotalSize(fields) && MaxOf(rows) == LargestSize(fields)
    decreases |rows|
  {
    if rows == [] {
    } else {
      MembersAddUp(rows[..|rows| - 1], fields[..|rows| - 1]);
      LastOfAggregates(rows);
    }
  }

  lemma RowIsItsOwn(be: Backend, kinds: map<string, string>, types: seq<TypeRow>, t: TypeRow)
    requires TypesBuilt(be, kinds, {}, types) && t in types
    ensures t.name in kinds && t == RowOf(be, t.name, kinds[t.name])
  {
    WhereCounts(types, (r: TypeRow) => r.name == t.name, t);
    assert t in Named(types, t.name);
  }

  /**
  For every struct and union: its size in one table is the sum, or the maximum, over its
  rows in the other, exactly if its definition could be read at all.
  */
  lemma TablesAgree(be: Backend, types: seq<TypeRow>, members: seq<MemberRow>, t: TypeRow)
    requires TypesTable(be, types) && MembersTable(be, members) && t in types
    ensures t.kind == "struct" ==>
              (t.size == SumOf(Of(members, t.name)) <==> be.cmdJson("tsj " + t.name).Obj?)
    ensures t.kind == "union" ==>
              (t.size == MaxOf(Of(members, t.name)) <==> be.cmdJson("tuj " + t.name).Obj?)
  {
    if IsAggregate(t.kind) {
      RowIsItsOwn(be, Parsed(be.cmd("tk*")), types, t);
      var fields, rows := Fields(DefinitionOf(be, t.name, t.kind)), MembersOf(be, t.name, t.kind);
      AggregatesIgnoreOrder(Of(members, t.name), rows);
      MembersAddUp(rows, fields);
    }
  }
}
