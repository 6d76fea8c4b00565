/**
Tables with one row per block or instruction of every function. A full scan walks the
functions lazily, through a generator that buffers one function at a time; the filter
`func_addr = X` is pushed down to a cursor over that function's rows alone.
*/
module Generators {
  import opened Json
  import opened HexAddresses
  import opened RowCursor
  import opened Sequences

  // ------------------------------------------------------------ the generator

  /** The rows of the functions at `addrs`, one after the other. */
  function Flatten<Row>(fetch: int -> seq<Row>, addrs: seq<int>): seq<Row> {
    if addrs == [] then [] else fetch(addrs[0]) + Flatten(fetch, addrs[1..])
  }

  function Addresses(funcs: Json): (r: seq<int>)
    ensures funcs.Arr? ==> |r| == |funcs.items| && forall i :: 0 <= i < |r| ==> r[i] == I64Addr(funcs.items[i])
    ensures !funcs.Arr? ==> r == []
  {
    if funcs.Arr? then seq(|funcs.items|, i requires 0 <= i < |funcs.items| => I64Addr(funcs.items[i])) else []
  }

  /** What is left of the buffer, and of the functions from the `fi`-th on. */
  ghost function Remaining<Row>(fetch: int -> seq<Row>, addrs: seq<int>, fi: nat, buf: seq<Row>, bi: nat): seq<Row>
    requires fi <= |addrs| && bi <= |buf|
  {
    buf[bi..] + Flatten(fetch, addrs[fi..])
  }

  lemma TakeBuffered<Row>(fetch: int -> seq<Row>, addrs: seq<int>, fi: nat, buf: seq<Row>, bi: nat)
    requires fi <= |addrs| && bi < |buf|
    ensures var all := Remaining(fetch, addrs, fi, buf, bi);
            all != [] && all[0] == buf[bi] && all[1..] == Remaining(fetch, addrs, fi, buf, bi + 1)
  {
    assert buf[bi..] == [buf[bi]] + buf[bi + 1..];
  }

  lemma Refill<Row>(fetch: int -> seq<Row>, addrs: seq<int>, fi: nat, buf: seq<Row>)
    requires fi < |addrs|
    ensures Remaining(fetch, addrs, fi, buf, |buf|) == Remaining(fetch, addrs, fi + 1, fetch(addrs[fi]), 0)
  {
    assert addrs[fi..][1..] == addrs[fi + 1..];
  }

  lemma NothingLeft<Row>(fetch: int -> seq<Row>, addrs: seq<int>, buf: seq<Row>)
    ensures Remaining(fetch, addrs, |addrs|, buf, |buf|) == []
  {
  }

  class Generator<Row(0)> {
    const fetch: int -> seq<Row>
    const funcs: Json
    var fi: nat
    var buf: seq<Row>
    var bi: nat
    var cur: Row

    ghost predicate Valid()
      reads this
    {
      bi <= |buf| && fi <= |Addresses(funcs)|
    }

    /** What is still to be yielded. */
    ghost function Rest(): seq<Row>
      requires Valid()
      reads this
    {
      Remaining(fetch, Addresses(funcs), fi, buf, bi)
    }

    /** `funcs` is the reply to `aflj`. */
    constructor (fetch: int -> seq<Row>, funcs: Json)
      ensures Valid() && this.fetch == fetch && Rest() == Flatten(fetch, Addresses(funcs))
    {
      this.fetch, this.funcs := fetch, funcs;
      fi, buf, bi := 0, [], 0;
      cur := *;
      new;
      assert Addresses(funcs)[0..] == Addresses(funcs);
    }

    /** Takes the next row of the buffer. */
    method Take()
      requires Valid() && bi < |buf|
      modifies this`cur, this`bi
      ensures Valid() && old(Rest()) != []
      ensures cur == old(Rest())[0] && Rest() == old(Rest())[1..]
    {
      TakeBuffered(fetch, Addresses(funcs), fi, buf, bi);
      cur := buf[bi];
      bi := bi + 1;
    }

    /** Fetches the rows of the next function. */
    method Fetch()
      requires Valid() && bi == |buf| && funcs.Arr? && fi < |funcs.items|
      modifies this`buf, this`fi, this`bi
      ensures Valid() && Rest() == old(Rest()) && fi == old(fi) + 1
    {
      Refill(fetch, Addresses(funcs), fi, buf);
      buf := fetch(I64Addr(funcs.items[fi]));
      fi := fi + 1;
      bi := 0;
    }

    method Next() returns (more: bool)
      requires Valid()
      modifies this
      ensures Valid() && (more <==> old(Rest()) != [])
      ensures more ==> cur == old(Rest())[0] && Rest() == old(Rest())[1..]
      ensures !more ==> Rest() == []
    {
      while true
        invariant Valid() && Rest() == old(Rest())
        decreases |Addresses(funcs)| - fi
      {
        if bi < |buf| {
          Take();
          return true;
        }
        if !funcs.Arr? || fi >= |funcs.items| {
          NothingLeft(fetch, Addresses(funcs), buf);
          return false;
        }
        Fetch();
      }
    }
  }

  method DrainGenerator<Row(0)>(g: Generator<Row>) returns (out: seq<Row>)
    requires g.Valid()
    modifies g
    ensures out == old(g.Rest())
  {
    out := [];
    ghost var all, left := g.Rest(), g.Rest();
    var more := g.Next();
    while more
      invariant g.Valid() && (more <==> left != [])
      invariant more ==> g.cur == left[0] && g.Rest() == left[1..]
      invariant all == out + left
      decreases |left|
    {
      ReadOne(all, out, left);
      out := out + [g.cur];
      left := g.Rest();
      more := g.Next();
    }
  }

  // ------------------------------------------------------------ full scan and pushdown

  function Count(addrs: seq<int>, fa: int): nat {
    if addrs == [] then 0 else (if addrs[0] == fa then 1 else 0) + Count(addrs[1..], fa)
  }

  function Copies<Row>(rows: seq<Row>, n: nat): seq<Row> {
    if n == 0 then [] else rows + Copies(rows, n - 1)
  }

  /** `keep` tells the rows of the function at `fa` from those of others. */
  ghost predicate Selects<Row(!new)>(fetch: int -> seq<Row>, keep: Row -> bool, fa: int) {
    forall f, i :: 0 <= i < |fetch(f)| ==> (keep(fetch(f)[i]) <==> f == fa)
  }

  /** Filtering the full scan gives the pushed-down rows once for each time the function is listed. */
  lemma {:induction false} ScanIsCopiesOfPushdown<Row(!new)>(
    fetch: int -> seq<Row>, keep: Row -> bool, addrs: seq<int>, fa: int)
    requires Selects(fetch, keep, fa)
    ensures Where(Flatten(fetch, addrs), keep) == Copies(fetch(fa), Count(addrs, fa))
    decreases |addrs|
  {
    if addrs == [] {
    } else {
      var f := addrs[0];
      WhereAppend(fetch(f), Flatten(fetch, addrs[1..]), keep);
      WhereAllOrNone(fetch(f), keep, f == fa);
      ScanIsCopiesOfPushdown(fetch, keep, addrs[1..], fa);
    }
  }

  lemma {:induction false} CopiesLength<Row>(rows: seq<Row>, n: nat)
    ensures |Copies(rows, n)| >= n * |rows|
    ensures rows == [] ==> Copies(rows, n) == []
    ensures n >= 2 ==> |Copies(rows, n)| >= 2 * |rows|
  {
    if n == 0 {
    } else {
      CopiesLength(rows, n - 1);
    }
  }

  /** The pushdown answers like the full scan exactly if the function is listed once, or has no rows. */
  lemma PushdownAgreesIff<Row(!new)>(
    fetch: int -> seq<Row>, keep: Row -> bool, addrs: seq<int>, fa: int)
    requires Selects(fetch, keep, fa)
    ensures Where(Flatten(fetch, addrs), keep) == fetch(fa) <==> Count(addrs, fa) == 1 || fetch(fa) == []
  {
    ScanIsCopiesOfPushdown(fetch, keep, addrs, fa);
    var n := Count(addrs, fa);
    CopiesLength(fetch(fa), n);
    if n == 1 { assert Copies(fetch(fa), 1) == fetch(fa) + Copies(fetch(fa), 0); }
  }

  // ------------------------------------------------------------ blocks

  datatype BlockRow = BlockRow(addr: int, size: int, funcAddr: int)

  function BlockOf(fa: int, b: Json): BlockRow {
    BlockRow(I64(b, "addr", 0), I64(b, "size", 0), fa)
  }

  function BlocksOf(be: Backend, fa: int): (r: seq<BlockRow>)
    ensures forall i :: 0 <= i < |r| ==> r[i].funcAddr == fa
  {
    match be.cmdJson("afbj @ " + HexAddr(fa))
    case Arr(bbs) => seq(|bbs|, i requires 0 <= i < |bbs| => BlockOf(fa, bbs[i]))
    case _ => []
  }

  method BlocksForFunc(be: Backend, fa: int) returns (out: seq<BlockRow>)
    ensures out == BlocksOf(be, fa)
  {
    out := [];
    var bbs := be.cmdJson("afbj @ " + HexAddr(fa));
    if !bbs.Arr? {
      return;
    }
    for n := 0 to |bbs.items|
      invariant out == BlocksOf(be, fa)[..n]
    {
      var b := bbs.items[n];
      out := out + [BlockRow(I64(b, "addr", 0), I64(b, "size", 0), fa)];
    }
  }

  method ScanBlocks(be: Backend) returns (out: seq<BlockRow>)
    ensures out == Flatten(fa => BlocksOf(be, fa), Addresses(be.cmdJson("aflj")))
    ensures forall fa :: AreBlocks(be, fa, BlocksOf(be, fa))
  {
    forall fa
      ensures AreBlocks(be, fa, BlocksOf(be, fa))
    {
      BlocksRead(be, fa);
    }
    var g := new Generator<BlockRow>(fa => BlocksOf(be, fa), be.cmdJson("aflj"));
    out := DrainGenerator(g);
  }

  method QueryBlocks(be: Backend, fa: int) returns (out: seq<BlockRow>)
    ensures out == BlocksOf(be, fa) && AreBlocks(be, fa, out)
  {
    BlocksRead(be, fa);
    var rows := BlocksForFunc(be, fa);
    var it := new RowIterator(rows);
    out := Drain(it);
  }

  /** `WHERE func_addr = fa` on the blocks table, pushed down or not. */
  lemma BlocksPushdown(be: Backend, fa: int)
    ensures var fetch := (f: int) => BlocksOf(be, f);
            var addrs := Addresses(be.cmdJson("aflj"));
            var scanned := Where(Flatten(fetch, addrs), (r: BlockRow) => r.funcAddr == fa);
            && scanned == Copies(BlocksOf(be, fa), Count(addrs, fa))
            && (scanned == BlocksOf(be, fa) <==> Count(addrs, fa) == 1 || BlocksOf(be, fa) == [])
  {
    var fetch := (f: int) => BlocksOf(be, f);
    var keep := (r: BlockRow) => r.funcAddr == fa;
    ScanIsCopiesOfPushdown(fetch, keep, Addresses(be.cmdJson("aflj")), fa);
    PushdownAgreesIff(fetch, keep, Addresses(be.cmdJson("aflj")), fa);
  }

  // ------------------------------------------------------------ instructions

  datatype InsnRow = InsnRow(addr: int, size: int, mnemonic: string, disasm: string, bytes: string, funcAddr: int)

  predicate IsBlank(c: char) {
    c == ' ' || c == '\t' || c == '\r' || c == '\n'
  }

  /** The longest start of `text` without blanks. */
  function FirstWord(text: string): (r: string)
    ensures r <= text && (forall i :: 0 <= i < |r| ==> !IsBlank(r[i]))
    ensures r == text || IsBlank(text[|r|])
  {
    if text == "" || IsBlank(text[0]) then "" else [text[0]] + FirstWord(text[1..])
  }

  function MnemonicOf(be: Backend, op: Json): string {
    var opcode := Text(be, op, "opcode", "");
    var text := if opcode != "" then opcode else Text(be, op, "disasm", "");
    if text == "" then Text(be, op, "type", "") else FirstWord(text)
  }

  function InsnOf(be: Backend, fa: int, op: Json): InsnRow {
    InsnRow(I64Addr(op), I64(op, "size", 0), MnemonicOf(be, op), Text(be, op, "disasm", ""),
            Text(be, op, "bytes", ""), fa)
  }

  function InsnRows(be: Backend, fa: int, ops: seq<Json>): (r: seq<InsnRow>)
    ensures |r| == |ops| && forall i :: 0 <= i < |r| ==> r[i] == InsnOf(be, fa, ops[i])
    ensures forall i :: 0 <= i < |r| ==> r[i].funcAddr == fa
  {
    seq(|ops|, i requires 0 <= i < |ops| => InsnOf(be, fa, ops[i]))
  }

  function InsnsOf(be: Backend, fa: int): (r: seq<InsnRow>)
    ensures forall i :: 0 <= i < |r| ==> r[i].funcAddr == fa
  {
    match Find(be.cmdJson("pdfj @ " + HexAddr(fa)), "ops")
    case Some(Arr(ops)) => InsnRows(be, fa, ops)
    case _ => []
  }

  method InsnsForFunc(be: Backend, fa: int) returns (out: seq<InsnRow>)
    ensures out == InsnsOf(be, fa) && AreInsns(be, fa, out)
  {
    InsnsRead(be, fa);
    out := [];
    var pdf := be.cmdJson("pdfj @ " + HexAddr(fa));
    if !pdf.Obj? || "ops" !in pdf.fields || !pdf.fields["ops"].Arr? {
      return;
    }
    out := RowsForOps(be, fa, pdf.fields["ops"].items);
  }

  method RowsForOps(be: Backend, fa: int, ops: seq<Json>) returns (out: seq<InsnRow>)
    ensures out == InsnRows(be, fa, ops)
  {
    out := [];
    ghost var all := InsnRows(be, fa, ops);
    for n := 0 to |ops|
      invariant out == all[..n]
    {
      var row := InsnOf(be, fa, ops[n]);
      assert all[..n + 1] == all[..n] + [row];
      out := out + [row];
    }
  }

  method ScanInsns(be: Backend) returns (out: seq<InsnRow>)
    ensures out == Flatten(fa => InsnsOf(be, fa), Addresses(be.cmdJson("aflj")))
    ensures forall fa :: AreInsns(be, fa, InsnsOf(be, fa))
  {
    forall fa
      ensures AreInsns(be, fa, InsnsOf(be, fa))
    {
      InsnsRead(be, fa);
    }
    var g := new Generator<InsnRow>(fa => InsnsOf(be, fa), be.cmdJson("aflj"));
    out := DrainGenerator(g);
  }

  method QueryInsns(be: Backend, fa: int) returns (out: seq<InsnRow>)
    ensures out == InsnsOf(be, fa) && AreInsns(be, fa, out)
  {
    InsnsRead(be, fa);
    var rows := InsnsForFunc(be, fa);
    var it := new RowIterator(rows);
    out := Drain(it);
  }

  /** The same for the instructions table. */
  lemma InsnsPushdown(be: Backend, fa: int)
    ensures var fetch := (f: int) => InsnsOf(be, f);
            var addrs := Addresses(be.cmdJson("aflj"));
            var scanned := Where(Flatten(fetch, addrs), (r: InsnRow) => r.funcAddr == fa);
            && scanned == Copies(InsnsOf(be, fa), Count(addrs, fa))
            && (scanned == InsnsOf(be, fa) <==> Count(addrs, fa) == 1 || InsnsOf(be, fa) == [])
  {
    var fetch := (f: int) => InsnsOf(be, f);
    var keep := (r: InsnRow) => r.funcAddr == fa;
    ScanIsCopiesOfPushdown(fetch, keep, Addresses(be.cmdJson("aflj")), fa);
    PushdownAgreesIff(fetch, keep, Addresses(be.cmdJson("aflj")), fa);
  }

  // ------------------------------------------------------------ the rows, in terms of the replies

  predicate IsBlock(b: Json, fa: int, row: BlockRow) {
    row.addr == I64(b, "addr", 0) && row.size == I64(b, "size", 0) && row.funcAddr == fa
  }

  /** One row for each element of the reply about this function. */
  predicate AreBlocks(be: Backend, fa: int, rows: seq<BlockRow>) {
    var bbs := Items(be.cmdJson("afbj @ " + HexAddr(fa)));
    |rows| == |bbs| && forall i :: 0 <= i < |rows| ==> IsBlock(bbs[i], fa, rows[i])
  }

  lemma BlocksRead(be: Backend, fa: int)
    ensures AreBlocks(be, fa, BlocksOf(be, fa))
  {
  }

  /** `word` is what `text` starts with, up to the first blank or to its end. */
  predicate StartsWith(text: string, word: string) {
    && word <= text
    && (forall i :: 0 <= i < |word| ==> word[i] !in {' ', '\t', '\r', '\n'})
    && (word == text || text[|word|] in {' ', '\t', '\r', '\n'})
  }

  /** The text of an instruction is its `opcode`, or its `disasm` when that is empty. */
  predicate IsMnemonic(be: Backend, op: Json, mnemonic: string) {
    var opcode, disasm := Text(be, op, "opcode", ""), Text(be, op, "disasm", "");
    if opcode != "" then StartsWith(opcode, mnemonic)
    else if disasm != "" then StartsWith(disasm, mnemonic)
    else mnemonic == Text(be, op, "type", "")
  }

  predicate IsInsn(be: Backend, op: Json, fa: int, row: InsnRow) {
    && IsAddress(op, row.addr)
    && row.size == I64(op, "size", 0)
    && IsMnemonic(be, op, row.mnemonic)
    && row.disasm == Text(be, op, "disasm", "")
    && row.bytes == Text(be, op, "bytes", "")
    && row.funcAddr == fa
  }

  /** One row for each element of `ops` in the reply about this function. */
  predicate AreInsns(be: Backend, fa: int, rows: seq<InsnRow>) {
    var ops := ItemsOf(be.cmdJson("pdfj @ " + HexAddr(fa)), "ops");
    |rows| == |ops| && forall i :: 0 <= i < |rows| ==> IsInsn(be, ops[i], fa, rows[i])
  }

  lemma InsnsRead(be: Backend, fa: int)
    ensures AreInsns(be, fa, InsnsOf(be, fa))
  {
    var ops := ItemsOf(be.cmdJson("pdfj @ " + HexAddr(fa)), "ops");
    assert InsnsOf(be, fa) == InsnRows(be, fa, ops);
    forall i | 0 <= i < |ops|
      ensures IsInsn(be, ops[i], fa, InsnOf(be, fa, ops[i]))
    {
      MnemonicRead(be, ops[i]);
    }
  }

  lemma MnemonicRead(be: Backend, op: Json)
    ensures IsMnemonic(be, op, MnemonicOf(be, op))
  {
  }

  /** The functions of a full scan, one for each element of the reply to `aflj`. */
  lemma AddressesRead(be: Backend)
    ensures var funcs := Items(be.cmdJson("aflj"));
            var addrs := Addresses(be.cmdJson("aflj"));
            |addrs| == |funcs| && forall i :: 0 <= i < |addrs| ==> IsAddress(funcs[i], addrs[i])
  {
  }
}
