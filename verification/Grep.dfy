/**
The grep table: one row for every function, flag, import, export, section and comment,
and the pushdown of `WHERE pattern = '...'` that keeps the matching rows.
*/
module Grep {
  import opened Json
  import opened Like
  import opened RowCursor
  import opened Sequences

  datatype GrepRow = GrepRow(kind: string, name: string, fullName: string, parentName: string, addr: int)

  // ------------------------------------------------------------ the rows

  /** One reply array to scan, and where its records keep their fields. */
  datatype Source = Source(
    cmd: string, kind: string, addrKey: Option<string>, nameKey: string, parentKey: Option<string>)

  const FUNCTIONS := Source("aflj", "func", None, "name", None)
  const FLAGS := Source("fj", "flag", None, "name", None)
  const IMPORTS := Source("iij", "import", Some("plt"), "name", Some("libname"))
  const EXPORTS := Source("iEj", "export", Some("vaddr"), "name", None)
  const SECTIONS := Source("iSj", "section", Some("vaddr"), "name", None)
  const COMMENTS := Source("CCj", "comment", None, "name", None)

  function FullName(parent: string, name: string): string {
    if parent == "" then name else parent + "!" + name
  }

  function RowOf(be: Backend, src: Source, j: Json): GrepRow {
    var name := Text(be, j, src.nameKey, "");
    var addr := match src.addrKey case Some(k) => I64(j, k, 0) case None => I64Addr(j);
    var parent := match src.parentKey case Some(k) => Text(be, j, k, "") case None => "";
    GrepRow(src.kind, name, FullName(parent, name), parent, addr)
  }

  function RowsOf(be: Backend, src: Source, items: seq<Json>): (r: seq<GrepRow>)
    ensures |r| == |items|
    ensures forall i :: 0 <= i < |r| ==> r[i] == RowOf(be, src, items[i])
  {
    seq(|items|, i requires 0 <= i < |items| => RowOf(be, src, items[i]))
  }

  /** The rows of one source; a reply that is not an array has none. */
  function Scanned(be: Backend, src: Source): seq<GrepRow> {
    match be.cmdJson(src.cmd)
    case Arr(items) => RowsOf(be, src, items)
    case _ => []
  }

  function FullScan(be: Backend): seq<GrepRow> {
    Scanned(be, FUNCTIONS) + Scanned(be, FLAGS) + Scanned(be, IMPORTS) + Scanned(be, EXPORTS) +
    Scanned(be, SECTIONS) + Scanned(be, COMMENTS)
  }

  method PushArray(be: Backend, rows: seq<GrepRow>, src: Source) returns (out: seq<GrepRow>)
    ensures out == rows + Scanned(be, src)
  {
    out := rows;
    var arr := be.cmdJson(src.cmd);
    if arr.Arr? {
      for n := 0 to |arr.items|
        invariant out == rows + RowsOf(be, src, arr.items)[..n]
      {
        var j := arr.items[n];
        var name := Text(be, j, src.nameKey, "");
        var addr := 0;
        match src.addrKey {
          case Some(k) => addr := I64(j, k, 0);
          case None => addr := I64Addr(j);
        }
        var parent := "";
        match src.parentKey {
          case Some(k) => parent := Text(be, j, k, "");
          case None =>
        }
        out := out + [GrepRow(src.kind, name, FullName(parent, name), parent, addr)];
      }
    }
  }

  /** Comments take the same path: their `name` is the text, their address is found like a function's. */
  method BuildGrepRows(be: Backend) returns (rows: seq<GrepRow>)
    ensures rows == FullScan(be)
  {
    rows := PushArray(be, [], FUNCTIONS);
    assert rows == Scanned(be, FUNCTIONS);
    rows := PushArray(be, rows, FLAGS);
    rows := PushArray(be, rows, IMPORTS);
    rows := PushArray(be, rows, EXPORTS);
    rows := PushArray(be, rows, SECTIONS);
    rows := PushArray(be, rows, COMMENTS);
  }

  // ------------------------------------------------------------ the pushdown

  predicate HasWild(pattern: string) {
    '%' in pattern || '_' in pattern
  }

  /** A pattern without wildcards asks for a substring. */
  function Wrapped(pattern: string): string {
    if HasWild(pattern) then pattern else "%" + pattern + "%"
  }

  ghost predicate Keeps(row: GrepRow, pattern: string) {
    Matches(row.name, Wrapped(pattern)) || Matches(row.fullName, Wrapped(pattern))
  }

  ghost function Filtered(rows: seq<GrepRow>, pattern: string): seq<GrepRow> {
    Where(rows, row => Keeps(row, pattern))
  }

  method OpenPattern(be: Backend, pattern: string) returns (it: RowIterator<GrepRow>)
    ensures fresh(it) && it.Valid() && it.Unread() == Filtered(FullScan(be), pattern)
  {
    var pat := if HasWild(pattern) then pattern else "%" + pattern + "%";
    var all := BuildGrepRows(be);
    var kept := [];
    for n := 0 to |all|
      invariant kept == Filtered(all[..n], pattern)
    {
      var byName, spent := LikeMatch(all[n].name, pat);
      var byFullName := false;
      if !byName {
        byFullName, spent := LikeMatch(all[n].fullName, pat);
      }
      WhereNext(all, n, row => Keeps(row, pattern));
      if byName || byFullName {
        kept := kept + [all[n]];
      }
    }
    assert all[..|all|] == all;
    it := new RowIterator(kept);
  }

  /** `SELECT * FROM grep WHERE pattern = ...`: the pushed-down scan read to its end. */
  method QueryPattern(be: Backend, pattern: string) returns (rows: seq<GrepRow>)
    ensures rows == Filtered(FullScan(be), pattern)
  {
    var it := OpenPattern(be, pattern);
    rows := Drain(it);
  }

  /** The pushdown loses no matching row, adds none, and keeps the order of the full scan. */
  lemma PushdownIsTheMatchingRows(be: Backend, pattern: string, r: GrepRow)
    ensures Subsequence(Filtered(FullScan(be), pattern), FullScan(be))
    ensures multiset(Filtered(FullScan(be), pattern))[r] == if Keeps(r, pattern) then multiset(FullScan(be))[r] else 0
  {
    var all := FullScan(be);
    var keep := (row: GrepRow) => Keeps(row, pattern);
    WhereCounts(all, keep, r);
    WhereSubsequence(all, keep);
  }

  // ------------------------------------------------------------ patterns without wildcards

  predicate OccursAt(t: string, p: string, k: nat) {
    k + |p| <= |t| && t[k..k + |p|] == p
  }

  ghost predicate Substring(p: string, t: string) {
    exists k: nat :: OccursAt(t, p, k)
  }

  /** The closing `%` swallows the rest, unless the rest starts with a `%` and goes on. */
  predicate EndsWell(t: string, m: nat) {
    m + 1 >= |t| || t[m] != '%'
  }

  /** What is kept for a pattern without wildcards, over any text. */
  ghost predicate PlainKept(t: string, p: string) {
    if t != "" && t[0] == '%' then OccursAt(t, p, 1) && EndsWell(t, 1 + |p|)
    else exists k: nat :: OccursAt(t, p, k) && EndsWell(t, k + |p|)
  }

  /** At the closing `%`, with the text at `k`. */
  lemma PlainEnd(t: string, w: string, k: nat)
    requires k <= |t| && w != "" && w[|w| - 1] == '%'
    ensures Greedy(t, k, w, |w| - 1) <==> EndsWell(t, k)
  {
    assert Greedy(t, |t|, w, |w|);
    assert GreedyFrom(t, k, w, |w|);
  }

  /** From position 1 of `%p%` on, with the text at `k`. */
  lemma {:induction false} PlainTail(t: string, p: string, k: nat, j: nat)
    requires k <= |t| && j <= |p| && !HasWild(p)
    ensures Greedy(t, k, "%" + p + "%", 1 + j) <==>
              k + (|p| - j) <= |t| && t[k..k + (|p| - j)] == p[j..] && EndsWell(t, k + (|p| - j))
    decreases |p| - j
  {
    var w := "%" + p + "%";
    if j == |p| {
      PlainEnd(t, w, k);
      assert t[k..k] == p[j..];
    } else {
      assert w[1 + j] == p[j];
      assert p[j] in p;
      if k < |t| {
        PlainTail(t, p, k + 1, j + 1);
        if k + (|p| - j) <= |t| {
          assert t[k..k + (|p| - j)] == [t[k]] + t[k + 1..k + 1 + (|p| - (j + 1))];
          assert p[j..] == [p[j]] + p[j + 1..];
        }
      }
    }
  }

  lemma PlainGreedy(t: string, p: string)
    requires !HasWild(p)
    ensures Greedy(t, 0, "%" + p + "%", 0) <==> PlainKept(t, p)
  {
    var w := "%" + p + "%";
    assert p[0..] == p;
    if t == "" {
      PlainTail(t, p, 0, 0);
      assert PlainKept(t, p) <==> OccursAt(t, p, 0);
    } else if t[0] == '%' {
      PlainTail(t, p, 1, 0);
    } else {
      forall k | 0 <= k <= |t|
        ensures Greedy(t, k, w, 1) <==> OccursAt(t, p, k) && EndsWell(t, k + |p|)
      {
        PlainTail(t, p, k, 0);
      }
      assert Greedy(t, 0, w, 0) <==> GreedyFrom(t, 0, w, 1);
    }
  }

  lemma LowerPlain(p: string)
    requires !HasWild(p)
    ensures !HasWild(Lower(p)) && Lower("%" + p + "%") == "%" + Lower(p) + "%"
  {
    LowerKeepsPercent(p);
    forall i | 0 <= i < |p|
      ensures Lower(p)[i] != '_'
    {
      assert p[i] in p;
    }
  }

  /** Exactly which texts a pattern without wildcards selects. */
  lemma PlainMatchIff(text: string, pattern: string)
    requires !HasWild(pattern)
    ensures Matches(text, Wrapped(pattern)) <==> PlainKept(Lower(text), Lower(pattern))
  {
    LowerPlain(pattern);
    PlainGreedy(Lower(text), Lower(pattern));
  }

  /** A row whose full name is composed from its name, as every row of the scan is. */
  predicate Composed(row: GrepRow) {
    row.fullName == FullName(row.parentName, row.name)
  }

  lemma EveryRowComposed(be: Backend)
    ensures forall row :: row in FullScan(be) ==> Composed(row)
  {
  }

  lemma SuffixSubstring(p: string, name: string, parent: string)
    requires Substring(p, Lower(name))
    ensures Substring(p, Lower(FullName(parent, name)))
  {
    var k: nat :| OccursAt(Lower(name), p, k);
    var d := |FullName(parent, name)| - |name|;
    var t := Lower(FullName(parent, name));
    assert t[d..] == Lower(name);
    assert t[d + k..d + k + |p|] == t[d..][k..k + |p|];
    assert OccursAt(t, p, d + k);
  }

  lemma PlainKeptIsSubstring(t: string, p: string)
    ensures PlainKept(t, p) ==> Substring(p, t)
    ensures '%' !in t && Substring(p, t) ==> PlainKept(t, p)
  {
  }

  /**
  For a pattern without wildcards a kept row's full name has the pattern in it, case
  aside; and if the full name has no `%`, the row is kept exactly then.
  */
  lemma PlainPatternIsSubstring(row: GrepRow, pattern: string)
    requires Composed(row) && !HasWild(pattern)
    ensures Keeps(row, pattern) ==> Substring(Lower(pattern), Lower(row.fullName))
    ensures '%' !in row.fullName ==> (Keeps(row, pattern) <==> Substring(Lower(pattern), Lower(row.fullName)))
  {
    PlainMatchIff(row.name, pattern);
    PlainMatchIff(row.fullName, pattern);
    PlainKeptIsSubstring(Lower(row.name), Lower(pattern));
    PlainKeptIsSubstring(Lower(row.fullName), Lower(pattern));
    if Substring(Lower(pattern), Lower(row.name)) {
      SuffixSubstring(Lower(pattern), row.name, row.parentName);
    }
    LowerKeepsPercent(row.fullName);
  }

  /** A row that a search for a part of its name misses. */
  lemma PercentHidesRow(kind: string, addr: int)
    ensures var row := GrepRow(kind, "%ab", "%ab", "", addr);
            Substring(Lower("b"), Lower(row.fullName)) && !Keeps(row, "b")
  {
    var t := Lower("%ab");
    assert t == "%ab" && Lower("b") == "b";
    assert OccursAt(t, "b", 2);
    PlainMatchIff("%ab", "b");
    assert t[1..2] == "a";
  }

  // ------------------------------------------------------------ rows and selection, in terms of the replies

  /** The columns that every source fills alike. */
  predicate Named(be: Backend, row: GrepRow, kind: string, j: Json) {
    row.kind == kind && row.name == Text(be, j, "name", "")
  }

  predicate NoParent(row: GrepRow) {
    row.parentName == "" && row.fullName == row.name
  }

  /** The address is found as in functions and comments, whose records name it differently. */
  predicate Plain(be: Backend, row: GrepRow, kind: string, j: Json) {
    Named(be, row, kind, j) && NoParent(row) && IsAddress(j, row.addr)
  }

  predicate Placed(be: Backend, row: GrepRow, kind: string, j: Json) {
    Named(be, row, kind, j) && NoParent(row) && row.addr == I64(j, "vaddr", 0)
  }

  predicate Imported(be: Backend, row: GrepRow, j: Json) {
    && Named(be, row, "import", j)
    && row.addr == I64(j, "plt", 0)
    && row.parentName == Text(be, j, "libname", "")
    && row.fullName == if row.parentName == "" then row.name else row.parentName + "!" + row.name
  }

  /** The scan is the rows of six replies, one row for each element, in this order. */
  lemma ScanReads(be: Backend) returns (
      f: seq<GrepRow>, g: seq<GrepRow>, i: seq<GrepRow>, e: seq<GrepRow>, s: seq<GrepRow>, c: seq<GrepRow>)
    ensures FullScan(be) == f + g + i + e + s + c
    ensures var items := Items(be.cmdJson("aflj"));
            |f| == |items| && forall n :: 0 <= n < |f| ==> Plain(be, f[n], "func", items[n])
    ensures var items := Items(be.cmdJson("fj"));
            |g| == |items| && forall n :: 0 <= n < |g| ==> Plain(be, g[n], "flag", items[n])
    ensures var items := Items(be.cmdJson("iij"));
            |i| == |items| && forall n :: 0 <= n < |i| ==> Imported(be, i[n], items[n])
    ensures var items := Items(be.cmdJson("iEj"));
            |e| == |items| && forall n :: 0 <= n < |e| ==> Placed(be, e[n], "export", items[n])
    ensures var items := Items(be.cmdJson("iSj"));
            |s| == |items| && forall n :: 0 <= n < |s| ==> Placed(be, s[n], "section", items[n])
    ensures var items := Items(be.cmdJson("CCj"));
            |c| == |items| && forall n :: 0 <= n < |c| ==> Plain(be, c[n], "comment", items[n])
  {
    f, g, i := Scanned(be, FUNCTIONS), Scanned(be, FLAGS), Scanned(be, IMPORTS);
    e, s, c := Scanned(be, EXPORTS), Scanned(be, SECTIONS), Scanned(be, COMMENTS);
  }

  /** `p` is part of `t`, but for the case of letters. */
  ghost predicate Contains(t: string, p: string) {
    exists k: nat :: ContainsAt(t, p, k)
  }

  predicate ContainsAt(t: string, p: string, k: nat) {
    k + |p| <= |t| && SameText(t[k..k + |p|], p)
  }

  lemma ContainsIsSubstring(t: string, p: string)
    ensures Contains(t, p) <==> Substring(Lower(p), Lower(t))
  {
    forall k: nat
      ensures ContainsAt(t, p, k) <==> OccursAt(Lower(t), Lower(p), k)
    {
      if k + |p| <= |t| {
        LowerSame(t[k..k + |p|], p);
        assert Lower(t)[k..k + |p|] == Lower(t[k..k + |p|]);
      }
    }
    if Contains(t, p) {
      var k: nat :| ContainsAt(t, p, k);
      assert OccursAt(Lower(t), Lower(p), k);
    }
    if k: nat :| OccursAt(Lower(t), Lower(p), k) {
      assert ContainsAt(t, p, k);
    }
  }

  /** What a pattern asks of a row: a reading of one of its names, or without wildcards to be part of the full name. */
  ghost predicate Asked(row: GrepRow, pattern: string) {
    if '%' in pattern || '_' in pattern then HasReading(row.name, pattern) || HasReading(row.fullName, pattern)
    else Contains(row.fullName, pattern)
  }

  /** Every row kept is one asked for; of the rows whose full name has no `%`, every row asked for is kept. */
  lemma KeepsWhatIsAsked(be: Backend, row: GrepRow, pattern: string)
    requires row in FullScan(be)
    ensures Keeps(row, pattern) ==> Asked(row, pattern)
    ensures '%' !in row.fullName ==> (Keeps(row, pattern) <==> Asked(row, pattern))
  {
    EveryRowComposed(be);
    if HasWild(pattern) {
      MatchesMeans(row.name, pattern);
      MatchesMeans(row.fullName, pattern);
      if '%' in row.name { NameInFullName(row); }
    } else {
      PlainPatternIsSubstring(row, pattern);
      ContainsIsSubstring(row.fullName, pattern);
    }
  }

  lemma NameInFullName(row: GrepRow)
    requires Composed(row) && '%' in row.name
    ensures '%' in row.fullName
  {
    var i :| 0 <= i < |row.name| && row.name[i] == '%';
    assert row.fullName[|row.fullName| - |row.name| + i] == '%';
  }
}
