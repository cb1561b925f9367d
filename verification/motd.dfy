/** motd.go: the first generation's layout-aware entry point. It turns
    colDef or showOrder into the order the collectors run and print in
    (dropping unknown names), collects each collector's result under its
    name, and prints them either as a flat list in that order or, with
    colDef, row by row. */
module Motd {
  import opened Wrappers
  import Utils
  import opened AppConf

  /** The configuration: the global flag, the two layout settings, the table
      padding and the modules. */
  datatype Conf = Conf(
    failedOnly: bool, showOrder: seq<string>, colDef: seq<seq<string>>, colPad: int, modules: Modules)

  const DefaultOrder: seq<string> := ["sysinfo", "updates", "systemd", "docker", "disk", "cpu", "zfs"]

  /** The known names are exactly the names of the seven modules. */
  lemma DefaultOrderIsModules(k: string)
    ensures k in DefaultOrder <==> Named(k).Some?
  {
  }

  /** Conf.Init: a table padding of 4 and the module defaults; the global
      flag and both layout settings are left as they are. */
  function Init(c: Conf): (r: Conf)
    ensures r.colPad == 4 && r.modules == Defaults(c.modules)
    ensures r.failedOnly == c.failedOnly && r.showOrder == c.showOrder && r.colDef == c.colDef
  {
    c.(colPad := 4, modules := Defaults(c.modules))
  }

  predicate Known(k: string) {
    k in DefaultOrder
  }

  /** makePrintOrder's check goes through a StringSet built from the default
      order, which holds exactly the known names. */
  lemma CheckSetIsKnown(k: string)
    ensures Utils.Contains(Utils.FromList(DefaultOrder), k) <==> Known(k)
  {
  }

  // ---------------------------------------------------------------------------
  // makePrintOrder

  /** The known names of a list, in order, duplicates kept. */
  function KeepKnown(ks: seq<string>): (r: seq<string>)
    ensures |r| <= |ks|
    ensures forall k :: k in r ==> k in ks && Known(k)
  {
    if |ks| == 0 then []
    else
      var rest := KeepKnown(ks[1..]);
      if Known(ks[0]) then [ks[0]] + rest else rest
  }

  /** Filtering keeps every known name as often as it occurs. */
  lemma {:induction false} KeepKnownCounts(ks: seq<string>)
    ensures forall k :: Known(k) ==> multiset(KeepKnown(ks))[k] == multiset(ks)[k]
  {
    if |ks| > 0 {
      KeepKnownCounts(ks[1..]);
      assert ks == [ks[0]] + ks[1..];
    }
  }

  lemma {:induction false} KeepKnownAppend(a: seq<string>, b: seq<string>)
    ensures KeepKnown(a + b) == KeepKnown(a) + KeepKnown(b)
  {
    if |a| > 0 {
      var ab := a + b;
      assert ab[0] == a[0] && ab[1..] == a[1..] + b;
      var here := if Known(a[0]) then [a[0]] else [];
      assert KeepKnown(ab) == here + KeepKnown(a[1..] + b);
      assert KeepKnown(a) == here + KeepKnown(a[1..]);
      KeepKnownAppend(a[1..], b);
    } else {
      assert a + b == b;
    }
  }

  function Flatten(rows: seq<seq<string>>): seq<string> {
    if |rows| == 0 then [] else rows[0] + Flatten(rows[1..])
  }

  /** The rewritten colDef: each row keeps its known names, rows left empty
      are dropped. */
  function VerifiedCols(rows: seq<seq<string>>): (r: seq<seq<string>>)
    ensures |r| <= |rows|
    ensures forall i :: 0 <= i < |r| ==> |r[i]| > 0 && forall k :: k in r[i] ==> k in DefaultOrder
  {
    if |rows| == 0 then []
    else
      var row := KeepKnown(rows[0]);
      (if |row| > 0 then [row] else []) + VerifiedCols(rows[1..])
  }

  /** Reading the rewritten rows in order gives the known names of the
      original rows, read in order. */
  lemma {:induction false} FlattenVerified(rows: seq<seq<string>>)
    ensures Flatten(VerifiedCols(rows)) == KeepKnown(Flatten(rows))
  {
    if |rows| > 0 {
      FlattenVerified(rows[1..]);
      KeepKnownAppend(rows[0], Flatten(rows[1..]));
      var row := KeepKnown(rows[0]);
      if |row| > 0 {
        assert VerifiedCols(rows) == [row] + VerifiedCols(rows[1..]);
      } else {
        assert VerifiedCols(rows) == VerifiedCols(rows[1..]);
      }
    }
  }

  /** The run order and the layout that remains after makePrintOrder. */
  datatype Plan = Plan(order: seq<string>, colDef: seq<seq<string>>)

  /** makePrintOrder: colDef (when non-empty) wins over showOrder, which wins
      over the default order. Unknown names are dropped; colDef is rewritten. */
  function MakePrintOrder(c: Conf): (p: Plan)
    ensures forall k :: k in p.order ==> k in DefaultOrder
    ensures forall i, k :: 0 <= i < |p.colDef| && k in p.colDef[i] ==> k in p.order
  {
    if |c.colDef| > 0 then
      var cols := VerifiedCols(c.colDef);
      var order := KeepKnown(Flatten(c.colDef));
      FlattenVerified(c.colDef);
      FlattenHas(cols);
      Plan(order, cols)
    else if |c.showOrder| > 0 then Plan(KeepKnown(c.showOrder), c.colDef)
    else Plan(DefaultOrder, [])
  }

  lemma {:induction false} FlattenHas(rows: seq<seq<string>>)
    ensures forall i, k :: 0 <= i < |rows| && k in rows[i] ==> k in Flatten(rows)
  {
    if |rows| > 0 {
      FlattenHas(rows[1..]);
      forall i, k | 0 <= i < |rows| && k in rows[i]
        ensures k in Flatten(rows)
      {
        if i > 0 {
          assert rows[i] == rows[1..][i - 1];
        }
      }
    }
  }

  /** With colDef set, showOrder is ignored and the run order is the row-major
      reading of the rewritten colDef. */
  lemma ColDefFirst(c: Conf, other: seq<string>)
    requires |c.colDef| > 0
    ensures MakePrintOrder(c) == MakePrintOrder(c.(showOrder := other))
    ensures MakePrintOrder(c).order == Flatten(MakePrintOrder(c).colDef)
  {
    FlattenVerified(c.colDef);
  }

  /** A colDef naming no known module runs nothing, even with showOrder set. */
  lemma UnknownColDefRunsNothing(c: Conf)
    requires |c.colDef| > 0
    requires forall i, k :: 0 <= i < |c.colDef| && k in c.colDef[i] ==> k !in DefaultOrder
    ensures MakePrintOrder(c) == Plan([], [])
  {
    var cols := VerifiedCols(c.colDef);
    FlattenVerified(c.colDef);
    FlattenHas(cols);
    if |cols| > 0 {
      var k := cols[0][0];
      FlattenHas(c.colDef);
      assert k in Flatten(c.colDef);
      FlattenMember(c.colDef, k);
      assert false;
    }
  }

  lemma {:induction false} FlattenMember(rows: seq<seq<string>>, k: string)
    requires k in Flatten(rows)
    ensures exists i :: 0 <= i < |rows| && k in rows[i]
  {
    if k !in rows[0] {
      FlattenMember(rows[1..], k);
      var i :| 0 <= i < |rows[1..]| && k in rows[1..][i];
      assert rows[i + 1] == rows[1..][i];
    }
  }

  /** Without colDef, a non-empty showOrder is run in its own order (what
      comes before any cut of it runs before what comes after), unknown
      names dropped, a repeated known name run as often as it is listed; with
      neither, the default order. */
  lemma ShowOrderKept(c: Conf)
    requires |c.colDef| == 0
    ensures |c.showOrder| > 0 ==>
      forall k :: k in DefaultOrder ==> multiset(MakePrintOrder(c).order)[k] == multiset(c.showOrder)[k]
    ensures |c.showOrder| > 0 ==> forall n :: 0 <= n <= |c.showOrder| ==>
      MakePrintOrder(c).order == KeepKnown(c.showOrder[..n]) + KeepKnown(c.showOrder[n..])
    ensures |c.showOrder| == 0 ==> MakePrintOrder(c).order == DefaultOrder
  {
    KeepKnownCounts(c.showOrder);
    forall n | 0 <= n <= |c.showOrder|
      ensures KeepKnown(c.showOrder) == KeepKnown(c.showOrder[..n]) + KeepKnown(c.showOrder[n..])
    {
      KeepKnownAppend(c.showOrder[..n], c.showOrder[n..]);
      assert c.showOrder[..n] + c.showOrder[n..] == c.showOrder;
    }
  }

  // ---------------------------------------------------------------------------
  // Collection and output

  /** The results by name: each collector runs once per name, on its own copy
      of the configuration with its override resolved. */
  function Results(order: seq<string>, c: Conf, run: (Module, Modules) -> string): (res: map<string, string>)
    requires forall k :: k in order ==> k in DefaultOrder
    ensures forall k :: k in res <==> k in order
  {
    map k | k in order :: var m := Named(k).value; run(m, Prepare(c.modules, c.failedOnly, m))
  }

  /** The cells of a table row: the results of its present names, in row order. */
  function Present(res: map<string, string>, row: seq<string>): (cells: seq<string>)
    ensures |cells| <= |row|
  {
    if |row| == 0 then []
    else (if row[0] in res then [res[row[0]]] else []) + Present(res, row[1..])
  }

  /** When every name of a row has a result, every cell is filled, in order. */
  lemma {:induction false} PresentAll(res: map<string, string>, row: seq<string>)
    requires forall k :: k in row ==> k in res
    ensures |Present(res, row)| == |row|
    ensures forall j :: 0 <= j < |row| ==> Present(res, row)[j] == res[row[j]]
  {
    if |row| > 0 {
      PresentAll(res, row[1..]);
    }
  }

  /** What one row of the table shows. */
  datatype Block = Alone(text: string) | Columns(cells: seq<string>)

  /** mapToTable: a one-name row is printed on its own (or skipped when it has
      no result); a longer row becomes a table row of its present cells. */
  function MapToTable(res: map<string, string>, rows: seq<seq<string>>): (bs: seq<Block>)
    ensures |bs| <= |rows|
  {
    if |rows| == 0 then []
    else
      var row := rows[0];
      var here :=
        if |row| == 1 then (if row[0] in res then [Alone(res[row[0]])] else [])
        else [Columns(Present(res, row))];
      here + MapToTable(res, rows[1..])
  }

  datatype Screen = Table(blocks: seq<Block>) | Flat(lines: seq<string>)

  /** main: plan, collect, then print by table (when a rewritten colDef is
      left) or flat in run order. */
  function Show(c: Conf, run: (Module, Modules) -> string): Screen {
    var p := MakePrintOrder(c);
    var res := Results(p.order, c, run);
    if |p.colDef| > 0 then Table(MapToTable(res, p.colDef))
    else Flat(seq(|p.order|, i requires 0 <= i < |p.order| => res[p.order[i]]))
  }

  /** The result of the collector a name selects, as the name's entry reads. */
  function Collected(c: Conf, run: (Module, Modules) -> string, k: string): string
    requires k in DefaultOrder
  {
    var m := Named(k).value;
    run(m, Prepare(c.modules, c.failedOnly, m))
  }

  /** Flat output lists the results in run order whatever order they arrive
      in: the i-th line is the result of the i-th name's collector. */
  lemma FlatInOrder(c: Conf, run: (Module, Modules) -> string)
    requires Show(c, run).Flat?
    ensures var order := MakePrintOrder(c).order;
      |Show(c, run).lines| == |order| &&
      forall i :: 0 <= i < |order| ==> Show(c, run).lines[i] == Collected(c, run, order[i])
  {
  }

  /** With a colDef every rewritten row is shown, and every cell of it holds
      its name's result: nothing the layout names is missing. */
  lemma TableComplete(c: Conf, run: (Module, Modules) -> string)
    requires Show(c, run).Table?
    ensures var rows := MakePrintOrder(c).colDef;
      var bs := Show(c, run).blocks;
      |bs| == |rows| &&
      forall i :: 0 <= i < |rows| ==>
        (|rows[i]| == 1 ==> bs[i] == Alone(Collected(c, run, rows[i][0]))) &&
        (|rows[i]| != 1 ==> (bs[i].Columns? && |bs[i].cells| == |rows[i]| &&
           forall j :: 0 <= j < |rows[i]| ==> bs[i].cells[j] == Collected(c, run, rows[i][j])))
  {
    var p := MakePrintOrder(c);
    var res := Results(p.order, c, run);
    TableRows(res, p.colDef);
    forall i | 0 <= i < |p.colDef| && |p.colDef[i]| != 1 {
      PresentAll(res, p.colDef[i]);
    }
  }

  lemma {:induction false} TableRows(res: map<string, string>, rows: seq<seq<string>>)
    requires forall i, k :: 0 <= i < |rows| && k in rows[i] ==> k in res
    ensures |MapToTable(res, rows)| == |rows|
    ensures forall i :: 0 <= i < |rows| ==>
      MapToTable(res, rows)[i] == (if |rows[i]| == 1 then Alone(res[rows[i][0]]) else Columns(Present(res, rows[i])))
  {
    if |rows| > 0 {
      TableRows(res, rows[1..]);
    }
  }
}
