/**
What the tables `types` and `types_members` say, in terms of the replies they are built
from: which command each figure comes from, and under which key.
*/
module TypeTables {
  import opened Json
  import opened TkDump
  import opened Sequences
  import opened Sorting
  import opened Types

  /** The dump declares the type. */
  predicate Declared(be: Backend, name: string, kind: string) {
    Maps(Parsed(be.cmd("tk*")), name, kind)
  }

  // ------------------------------------------------------------ sizes

  /** Bytes of a field, an array counted with all its elements. */
  function FieldBytes(f: Json): int {
    var count := I64(f, "array_size", 1);
    I64(f, "size", 0) * if count >= 1 then count else 1
  }

  predicate RunningSums(fields: seq<Json>, sums: seq<int>) {
    |sums| == |fields| + 1 && sums[0] == 0 &&
    forall k :: 0 <= k < |fields| ==> sums[k + 1] == sums[k] + FieldBytes(fields[k])
  }

  ghost predicate AddsUp(fields: seq<Json>, total: int) {
    exists sums :: RunningSums(fields, sums) && sums[|fields|] == total
  }

  /** The most bytes that a field has, but not less than 0. */
  ghost predicate IsLargest(fields: seq<Json>, size: int) {
    && size >= 0
    && (forall i :: 0 <= i < |fields| ==> FieldBytes(fields[i]) <= size)
    && (size > 0 ==> exists i :: 0 <= i < |fields| && FieldBytes(fields[i]) == size)
  }

  lemma {:induction false} TotalAddsUp(fields: seq<Json>)
    ensures AddsUp(fields, TotalSize(fields))
    decreases |fields|
  {
    if fields == [] {
      assert RunningSums(fields, [0]);
    } else {
      var n := |fields| - 1;
      TotalAddsUp(fields[..n]);
      var sums :| RunningSums(fields[..n], sums) && sums[n] == TotalSize(fields[..n]);
      var sums' := sums + [TotalSize(fields)];
      forall k | 0 <= k < |fields|
        ensures sums'[k + 1] == sums'[k] + FieldBytes(fields[k])
      {
        if k < n { assert fields[..n][k] == fields[k]; }
      }
      assert RunningSums(fields, sums');
    }
  }

  lemma LargestGrows(fields: seq<Json>, f: Json, size: int)
    requires IsLargest(fields, size)
    ensures IsLargest(fields + [f], if FieldBytes(f) > size then FieldBytes(f) else size)
  {
    var all := fields + [f];
    if FieldBytes(f) > size {
      assert FieldBytes(all[|fields|]) == FieldBytes(f);
    } else if size > 0 {
      var i :| 0 <= i < |fields| && FieldBytes(fields[i]) == size;
      assert FieldBytes(all[i]) == size;
    }
  }

  lemma {:induction false} LargestIsLargest(fields: seq<Json>)
    ensures IsLargest(fields, LargestSize(fields))
    decreases |fields|
  {
    if fields == [] {
    } else {
      var n := |fields| - 1;
      LargestIsLargest(fields[..n]);
      LargestGrows(fields[..n], fields[n], LargestSize(fields[..n]));
      assert fields == fields[..n] + [fields[n]];
    }
  }

  lemma RowFound(be: Backend, types: seq<TypeRow>, t: TypeRow)
    requires TypesTable(be, types) && t in types
    ensures Declared(be, t.name, t.kind) && t == RowOf(be, t.name, t.kind)
  {
    RowIsItsOwn(be, Parsed(be.cmd("tk*")), types, t);
  }

  lemma StructRow(be: Backend, name: string)
    ensures var reply, t := be.cmdJson("tsj " + name), RowOf(be, name, "struct");
            if reply.Obj? then AddsUp(ItemsOf(reply, "fields"), t.size) && t.format == Text(be, reply, "format", "")
            else t.size == -1 && t.format == ""
  {
    TotalAddsUp(ItemsOf(be.cmdJson("tsj " + name), "fields"));
  }

  lemma UnionRow(be: Backend, name: string)
    ensures var reply, t := be.cmdJson("tuj " + name), RowOf(be, name, "union");
            if reply.Obj? then IsLargest(ItemsOf(reply, "fields"), t.size) && t.format == Text(be, reply, "format", "")
            else t.size == -1 && t.format == ""
  {
    LargestIsLargest(ItemsOf(be.cmdJson("tuj " + name), "fields"));
  }

  /** A struct's row is read from `tsj`. */
  lemma StructRead(be: Backend, types: seq<TypeRow>, t: TypeRow)
    requires TypesTable(be, types) && t in types && t.kind == "struct"
    ensures var reply := be.cmdJson("tsj " + t.name);
            if reply.Obj? then AddsUp(ItemsOf(reply, "fields"), t.size) && t.format == Text(be, reply, "format", "")
            else t.size == -1 && t.format == ""
  {
    RowFound(be, types, t);
    StructRow(be, t.name);
  }

  /** A union's row is read from `tuj`. */
  lemma UnionRead(be: Backend, types: seq<TypeRow>, t: TypeRow)
    requires TypesTable(be, types) && t in types && t.kind == "union"
    ensures var reply := be.cmdJson("tuj " + t.name);
            if reply.Obj? then IsLargest(ItemsOf(reply, "fields"), t.size) && t.format == Text(be, reply, "format", "")
            else t.size == -1 && t.format == ""
  {
    RowFound(be, types, t);
    UnionRow(be, t.name);
  }

  /** What stands under `types` in the reply to `tj`, one record after the other. */
  function TypeRecords(reply: Json): seq<Json> {
    if reply.Obj? && "types" in reply.fields then Elements(reply.fields["types"]) else []
  }

  /** An array is visited from its first element on, an object in the order of its keys; null has nothing to visit. */
  lemma ElementsAre(j: Json)
    ensures j.Arr? ==> Elements(j) == j.items
    ensures j.Null? ==> Elements(j) == []
    ensures j.Obj? ==> exists keys: seq<string> ::
              && (forall k :: k in keys <==> k in j.fields)
              && (forall n, m :: 0 <= n < m < |keys| ==> Precedes(keys[n], keys[m]))
              && |Elements(j)| == |keys|
              && forall n :: 0 <= n < |keys| ==> keys[n] in keys && Elements(j)[n] == j.fields[keys[n]]
    ensures !j.Arr? && !j.Null? && !j.Obj? ==> Elements(j) == [j]
  {
    if j.Obj? {
      var keys := KeysInOrder(j.fields.Keys);
      forall n, m | 0 <= n < m < |keys|
        ensures Precedes(keys[n], keys[m])
      {
        LexMeans(keys[n], keys[m]);
      }
      forall n | 0 <= n < |keys|
        ensures keys[n] in keys && Elements(j)[n] == j.fields[keys[n]]
      {
      }
    }
  }

  /** Record `n` is the last of that name. */
  predicate LastOf(be: Backend, records: seq<Json>, name: string, n: nat) {
    && n < |records| && Text(be, records[n], "type", "") == name
    && forall m :: n < m < |records| ==> Text(be, records[m], "type", "") != name
  }

  /** An atomic type's row is read from its last record in `tj`; without one nothing is known of it. */
  lemma AtomicRead(be: Backend, types: seq<TypeRow>, t: TypeRow)
    requires TypesTable(be, types) && t in types && (t.kind == "atomic" || t.kind == "type")
    ensures var records := TypeRecords(be.cmdJson("tj"));
            && (forall n: nat :: LastOf(be, records, t.name, n) ==>
                  t.size == I64(records[n], "size", -1) && t.format == Text(be, records[n], "format", ""))
            && ((forall n: nat :: !LastOf(be, records, t.name, n)) ==> t.size == -1 && t.format == "")
  {
    RowFound(be, types, t);
    var records := TypeRecords(be.cmdJson("tj"));
    assert records == AtomicRecords(be);
    forall n: nat | LastOf(be, records, t.name, n)
      ensures LastRecord(be, records, t.name) == Some(records[n])
    {
      LastIsRead(be, records, t.name, n);
    }
    if LastRecord(be, records, t.name).Some? { LastExists(be, records, t.name); }
  }

  lemma {:induction false} LastIsRead(be: Backend, records: seq<Json>, name: string, n: nat)
    requires LastOf(be, records, name, n)
    ensures LastRecord(be, records, name) == Some(records[n])
    decreases |records|
  {
    if n == |records| - 1 {
    } else {
      LastIsRead(be, records[..|records| - 1], name, n);
    }
  }

  lemma LastExists(be: Backend, records: seq<Json>, name: string)
    requires LastRecord(be, records, name).Some?
    ensures exists n: nat :: LastOf(be, records, name, n)
  {
    var n :| && 0 <= n < |records| && AtomicName(be, records[n]) == name
             && forall m :: n < m < |records| ==> AtomicName(be, records[m]) != name;
    assert LastOf(be, records, name, n);
  }

  /** Of other types no size is known. */
  lemma OthersRead(be: Backend, types: seq<TypeRow>, t: TypeRow)
    requires TypesTable(be, types) && t in types && t.kind !in {"struct", "union", "atomic", "type"}
    ensures t.size == -1 && t.format == ""
  {
    RowFound(be, types, t);
  }

  /** The table lists exactly the types of the dump, each once, by name. */
  lemma TypesListed(be: Backend, types: seq<TypeRow>)
    requires TypesTable(be, types)
    ensures forall name, kind ::
              Declared(be, name, kind) <==> exists t :: t in types && t.name == name && t.kind == kind
    ensures forall i, j :: 0 <= i < j < |types| ==> Precedes(types[i].name, types[j].name)
  {
    forall name, kind
      ensures Declared(be, name, kind) <==> exists t :: t in types && t.name == name && t.kind == kind
    {
      if Declared(be, name, kind) { OnlyRow(be, types, name); }
      if t :| t in types && t.name == name && t.kind == kind { RowFound(be, types, t); }
    }
    forall i, j | 0 <= i < j < |types|
      ensures Precedes(types[i].name, types[j].name)
    {
      assert !TypeLess(types[j], types[i]);
      LexIsTotal(types[i].name, types[j].name);
      NamedOnce(be, types, i, j);
      LexMeans(types[i].name, types[j].name);
    }
  }

  lemma OnlyRow(be: Backend, types: seq<TypeRow>, name: string)
    requires TypesTable(be, types) && name in Parsed(be.cmd("tk*"))
    ensures exists t :: t in types && t.name == name && t.kind == Parsed(be.cmd("tk*"))[name]
  {
    var t := RowOf(be, name, Parsed(be.cmd("tk*"))[name]);
    assert Named(types, name) == [t];
    WhereCounts(types, (row: TypeRow) => row.name == name, t);
    assert multiset([t])[t] == 1;
    assert t in multiset(types);
  }

  lemma NamedOnce(be: Backend, types: seq<TypeRow>, i: nat, j: nat)
    requires TypesTable(be, types) && i < j < |types|
    ensures types[i].name != types[j].name
  {
    var t := types[i];
    if types[j].name == t.name {
      RowFound(be, types, t);
      RowFound(be, types, types[j]);
      Twice(types, i, j);
      assert Named(types, t.name) == [t];
      assert multiset([t])[t] == 1;
      WhereCounts(types, (row: TypeRow) => row.name == t.name, t);
    }
  }

  lemma Twice<T>(s: seq<T>, i: nat, j: nat)
    requires i < j < |s| && s[i] == s[j]
    ensures multiset(s)[s[i]] >= 2
  {
    assert s == s[..i] + ([s[i]] + (s[i + 1..j] + ([s[j]] + s[j + 1..])));
  }

  // ------------------------------------------------------------ members

  predicate ReadsField(be: Backend, name: string, kind: string, f: Json, row: MemberRow) {
    && row.typeName == name && row.parentKind == kind
    && row.memberName == Text(be, f, "name", "") && row.memberType == Text(be, f, "type", "")
    && row.offset == I64(f, "offset", 0) && row.size == I64(f, "size", 0)
    && row.arraySize == (if I64(f, "array_size", 1) >= 1 then I64(f, "array_size", 1) else 1)
    && row.value == 0
  }

  /** The table's rows of that type are `own`, in some order. */
  ghost predicate HasRows(members: seq<MemberRow>, name: string, own: seq<MemberRow>) {
    forall row: MemberRow :: row.typeName == name ==> multiset(members)[row] == multiset(own)[row]
  }

  lemma OwnRows(members: seq<MemberRow>, name: string, own: seq<MemberRow>)
    requires multiset(Of(members, name)) == multiset(own)
    ensures HasRows(members, name, own)
  {
    forall row: MemberRow | row.typeName == name
      ensures multiset(members)[row] == multiset(own)[row]
    {
      WhereCounts(members, (r: MemberRow) => r.typeName == name, row);
    }
  }

  /** The rows of a struct are its fields in `tsj`, those of a union its fields in `tuj`, one for one. */
  lemma FieldsListed(be: Backend, members: seq<MemberRow>, name: string, kind: string) returns (own: seq<MemberRow>)
    requires MembersTable(be, members) && Declared(be, name, kind) && (kind == "struct" || kind == "union")
    ensures HasRows(members, name, own)
    ensures var fields := ItemsOf(be.cmdJson(if kind == "struct" then "tsj " + name else "tuj " + name), "fields");
            |own| == |fields| && forall i :: 0 <= i < |own| ==> ReadsField(be, name, kind, fields[i], own[i])
  {
    own := MembersOf(be, name, kind);
    assert RowsOf(be, name, kind, Of(members, name));
    OwnRows(members, name, own);
    FieldsAre(be, name, kind);
  }

  lemma FieldsAre(be: Backend, name: string, kind: string)
    requires kind == "struct" || kind == "union"
    ensures var fields := ItemsOf(be.cmdJson(if kind == "struct" then "tsj " + name else "tuj " + name), "fields");
            var own := MembersOf(be, name, kind);
            |own| == |fields| && forall i :: 0 <= i < |own| ==> ReadsField(be, name, kind, fields[i], own[i])
  {
    assert Fields(DefinitionOf(be, name, kind)) ==
           ItemsOf(be.cmdJson(if kind == "struct" then "tsj " + name else "tuj " + name), "fields");
  }

  predicate ReadsConstant(be: Backend, name: string, reply: Json, row: MemberRow) {
    && reply.Obj? && "values" in reply.fields && reply.fields["values"].Obj?
    && row.memberName in reply.fields["values"].fields
    && var value := reply.fields["values"].fields[row.memberName];
       row == MemberRow(name, "enum", row.memberName, "", 0, 0, 0, if value.Number? then ToInt64(value.n) else 0)
  }

  lemma ConstantIs(be: Backend, name: string, row: MemberRow)
    ensures IsConstant(be, name, row) <==> ReadsConstant(be, name, be.cmdJson("tej " + name), row)
  {
  }

  /** The rows of an enum are the constants under `values` in `tej`, each once. */
  lemma ConstantsListed(be: Backend, members: seq<MemberRow>, name: string)
    requires MembersTable(be, members) && Declared(be, name, "enum")
    ensures forall row: MemberRow :: row.typeName == name ==>
              multiset(members)[row] == if ReadsConstant(be, name, be.cmdJson("tej " + name), row) then 1 else 0
  {
    forall row: MemberRow | row.typeName == name
      ensures multiset(members)[row] == if ReadsConstant(be, name, be.cmdJson("tej " + name), row) then 1 else 0
    {
      WhereCounts(members, (r: MemberRow) => r.typeName == name, row);
      assert RowsOf(be, name, "enum", Of(members, name));
      ConstantIs(be, name, row);
    }
  }

  /** Nothing else has members. */
  lemma NothingElseListed(be: Backend, members: seq<MemberRow>, row: MemberRow)
    requires MembersTable(be, members) && row in members
    ensures exists kind :: Declared(be, row.typeName, kind) && kind in {"struct", "union", "enum"}
  {
    WhereCounts(members, (r: MemberRow) => r.typeName == row.typeName, row);
    assert row in Of(members, row.typeName);
    var kinds := Parsed(be.cmd("tk*"));
    assert Declared(be, row.typeName, kinds[row.typeName]);
  }

  /** The rows are sorted by the name of the type, those of a type by offset. */
  lemma MembersSorted(be: Backend, members: seq<MemberRow>, i: nat, j: nat)
    requires MembersTable(be, members) && i < j < |members|
    ensures var a, b := members[i], members[j];
            Precedes(a.typeName, b.typeName) || (a.typeName == b.typeName && a.offset <= b.offset)
  {
    var a, b := members[i], members[j];
    assert !MemberLess(b, a);
    LexIsTotal(a.typeName, b.typeName);
    LexMeans(a.typeName, b.typeName);
  }
}
