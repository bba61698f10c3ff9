/** The log report's aggregates: the per-worker summary, the worker-by-type pivot
    with its row totals, and the list of workers the report offers. */
module Reports {
  import opened Tables
  import opened Seqs
  import opened Sorting
  import opened Ledger

  /** Sum of the quantities of the rows whose key is k. */
  function QtyWhere(es: seq<LogEntry>, key: LogEntry -> string, k: string): int {
    if es == [] then 0
    else (if key(es[0]) == k then es[0].quantity else 0) + QtyWhere(es[1..], key, k)
  }

  /** The per-key sums, added up over the keys ks. */
  function SumOver(es: seq<LogEntry>, key: LogEntry -> string, ks: seq<string>): int {
    if ks == [] then 0 else QtyWhere(es, key, ks[0]) + SumOver(es, key, ks[1..])
  }

  lemma {:induction false} SumOverNil(key: LogEntry -> string, ks: seq<string>)
    ensures SumOver([], key, ks) == 0
  {
    if ks != [] {
      SumOverNil(key, ks[1..]);
    }
  }

  lemma {:induction false} SumOverCons(e: LogEntry, es: seq<LogEntry>, key: LogEntry -> string, ks: seq<string>)
    requires NoDuplicates(ks)
    ensures SumOver([e] + es, key, ks) == SumOver(es, key, ks) + (if key(e) in ks then e.quantity else 0)
  {
    if ks != [] {
      assert ([e] + es)[1..] == es;
      SumOverCons(e, es, key, ks[1..]);
      assert key(e) in ks <==> key(e) == ks[0] || key(e) in ks[1..] by {
        assert ks == [ks[0]] + ks[1..];
      }
      assert key(e) == ks[0] ==> key(e) !in ks[1..] by {
        forall i | 0 <= i < |ks| - 1 ensures ks[1..][i] != ks[0] {
          assert ks[1..][i] == ks[i + 1];
        }
      }
    }
  }

  /** Grouping by a key loses nothing: over distinct keys that cover every row, the
      per-key sums add up to the total. */
  lemma {:induction false} PartitionByKey(es: seq<LogEntry>, key: LogEntry -> string, ks: seq<string>)
    requires NoDuplicates(ks)
    requires forall i :: 0 <= i < |es| ==> key(es[i]) in ks
    ensures SumOver(es, key, ks) == IssuedTotal(es)
  {
    if es == [] {
      SumOverNil(key, ks);
    } else {
      assert es == [es[0]] + es[1..];
      PartitionByKey(es[1..], key, ks);
      SumOverCons(es[0], es[1..], key, ks);
    }
  }

  /** Distinct names in Python's sorted order: how groupby and pivot_table lay out their index. */
  function ReportNames(xs: seq<string>): (r: seq<string>)
    ensures NoDuplicates(r) && SortedBy(NameLe, r)
    ensures forall x :: x in r <==> x in xs
  {
    var d := Distinct(xs);
    var r := SortedNames(d);
    NoDuplicatesPermutation(d, r);
    SameMembers(d, r);
    r
  }

  // ---------------------------------------------------------------------------
  // Per-worker summary: naplo.groupby("Dolgozó")["Mennyiség"].sum()

  datatype SummaryRow = SummaryRow(worker: string, issued: int)

  function SummaryRows(es: seq<LogEntry>, ws: seq<string>): (r: seq<SummaryRow>)
    ensures |r| == |ws| && forall i :: 0 <= i < |ws| ==> r[i] == SummaryRow(ws[i], QtyWhere(es, WorkerOf, ws[i]))
  {
    seq(|ws|, i requires 0 <= i < |ws| => SummaryRow(ws[i], QtyWhere(es, WorkerOf, ws[i])))
  }

  /** Each summary row holds everything issued in its worker's rows. */
  function Summary(es: seq<LogEntry>): (r: seq<SummaryRow>)
    ensures forall i :: 0 <= i < |r| ==> r[i].issued == IssuedTotal(OfWorker(es, r[i].worker))
  {
    var ws := ReportNames(Column(es, WorkerOf));
    var r := SummaryRows(es, ws);
    assert forall i :: 0 <= i < |r| ==> r[i].issued == IssuedTotal(OfWorker(es, r[i].worker)) by {
      forall i | 0 <= i < |r| ensures r[i].issued == IssuedTotal(OfWorker(es, r[i].worker)) {
        OfWorkerTotal(es, ws[i]);
      }
    }
    r
  }

  /** The summary's rows are sorted by worker name, each worker once. */
  lemma SummaryOrder(es: seq<LogEntry>)
    ensures var r := Summary(es);
      forall i, j :: 0 <= i < j < |r| ==> r[i].worker != r[j].worker && NameLe(r[i].worker, r[j].worker)
  {
  }

  /** The summary has a row for every worker of the rows and for no one else. */
  lemma SummaryWorkers(es: seq<LogEntry>)
    ensures var r := Summary(es); (set i | 0 <= i < |r| :: r[i].worker) == WorkerSet(es)
  {
    var ws := ReportNames(Column(es, WorkerOf));
    var r := Summary(es);
    WorkerNames(es, ws);
    assert (set i | 0 <= i < |r| :: r[i].worker) == (set i | 0 <= i < |ws| :: ws[i]);
  }

  /** Names that are exactly the worker column's values are the rows' workers. */
  lemma WorkerNames(es: seq<LogEntry>, ws: seq<string>)
    requires forall x :: x in ws <==> x in Column(es, WorkerOf)
    ensures (set i | 0 <= i < |ws| :: ws[i]) == WorkerSet(es)
  {
    var c := Column(es, WorkerOf);
    forall x | x in WorkerSet(es) ensures x in (set i | 0 <= i < |ws| :: ws[i]) {
      var j :| 0 <= j < |es| && es[j].worker == x;
      assert c[j] == x;
      assert x in ws;
      var i :| 0 <= i < |ws| && ws[i] == x;
    }
    forall x | x in (set i | 0 <= i < |ws| :: ws[i]) ensures x in WorkerSet(es) {
      var i :| 0 <= i < |ws| && ws[i] == x;
      assert x in c;
      var j :| 0 <= j < |c| && c[j] == x;
      assert es[j].worker == x;
    }
  }

  function SumIssued(rows: seq<SummaryRow>): int {
    if rows == [] then 0 else rows[0].issued + SumIssued(rows[1..])
  }

  lemma {:induction false} SumIssuedRows(es: seq<LogEntry>, ws: seq<string>)
    ensures SumIssued(SummaryRows(es, ws)) == SumOver(es, WorkerOf, ws)
  {
    if ws != [] {
      assert SummaryRows(es, ws)[1..] == SummaryRows(es, ws[1..]);
      SumIssuedRows(es, ws[1..]);
    }
  }

  /** The summary's column adds up to everything issued in the rows. */
  lemma SummaryAddsUp(es: seq<LogEntry>)
    ensures SumIssued(Summary(es)) == IssuedTotal(es)
  {
    var ws := ReportNames(Column(es, WorkerOf));
    SumIssuedRows(es, ws);
    forall i | 0 <= i < |es| ensures WorkerOf(es[i]) in ws {
      assert Column(es, WorkerOf)[i] == WorkerOf(es[i]);
    }
    PartitionByKey(es, WorkerOf, ws);
  }

  // ---------------------------------------------------------------------------
  // Pivot: naplo.pivot_table(index="Dolgozó", columns="Típus", values="Mennyiség",
  //                          aggfunc="sum", fill_value=0), plus the "Összesen" column

  datatype PivotRow = PivotRow(worker: string, cells: seq<int>, total: int)

  datatype Pivot = Pivot(kinds: seq<string>, rows: seq<PivotRow>)

  /** Sum of the quantities issued to worker w of type k. */
  function PairQty(es: seq<LogEntry>, w: string, k: string): int {
    if es == [] then 0
    else (if es[0].worker == w && es[0].kind == k then es[0].quantity else 0) + PairQty(es[1..], w, k)
  }

  /** The rows of worker w. */
  function OfWorker(es: seq<LogEntry>, w: string): (r: seq<LogEntry>)
    ensures forall i :: 0 <= i < |r| ==> r[i].worker == w && r[i] in es
  {
    if es == [] then []
    else (if es[0].worker == w then [es[0]] else []) + OfWorker(es[1..], w)
  }

  function PivotRowOf(es: seq<LogEntry>, w: string, kinds: seq<string>): (r: PivotRow)
    ensures r.worker == w && |r.cells| == |kinds|
  {
    var mine := OfWorker(es, w);
    var cells := seq(|kinds|, j requires 0 <= j < |kinds| => QtyWhere(mine, KindOf, kinds[j]));
    PivotRow(w, cells, Sum(cells))
  }

  function PivotRows(es: seq<LogEntry>, ws: seq<string>, kinds: seq<string>): (rows: seq<PivotRow>)
    ensures |rows| == |ws|
    ensures forall i :: 0 <= i < |ws| ==> rows[i] == PivotRowOf(es, ws[i], kinds)
  {
    seq(|ws|, i requires 0 <= i < |ws| => PivotRowOf(es, ws[i], kinds))
  }

  /** Workers as rows and types as columns; a cell holds what its worker received of
      its type; the last column adds up the row. */
  function PivotTable(es: seq<LogEntry>): (p: Pivot)
    ensures forall i :: 0 <= i < |p.rows| ==> |p.rows[i].cells| == |p.kinds|
  {
    var kinds := ReportNames(Column(es, KindOf));
    Pivot(kinds, PivotRows(es, ReportNames(Column(es, WorkerOf)), kinds))
  }

  /** The pivot's columns are the types of the rows, each once, sorted by name. */
  lemma PivotColumns(es: seq<LogEntry>)
    ensures var p := PivotTable(es);
      && NoDuplicates(p.kinds) && SortedBy(NameLe, p.kinds)
      && (forall k :: k in p.kinds <==> exists j :: 0 <= j < |es| && es[j].kind == k)
  {
    KindColumn(es);
  }

  /** The pivot's rows are sorted by worker name, each worker once. */
  lemma PivotRowOrder(es: seq<LogEntry>)
    ensures var p := PivotTable(es);
      forall i, j :: 0 <= i < j < |p.rows| ==> p.rows[i].worker != p.rows[j].worker && NameLe(p.rows[i].worker, p.rows[j].worker)
  {
  }

  /** The pivot has a row for every worker of the rows and for no one else. */
  lemma PivotWorkers(es: seq<LogEntry>)
    ensures var p := PivotTable(es); (set i | 0 <= i < |p.rows| :: p.rows[i].worker) == WorkerSet(es)
  {
    var ws := ReportNames(Column(es, WorkerOf));
    var rows := PivotTable(es).rows;
    WorkerNames(es, ws);
    assert (set i | 0 <= i < |rows| :: rows[i].worker) == (set i | 0 <= i < |ws| :: ws[i]);
  }



  lemma {:induction false} OfWorkerKind(es: seq<LogEntry>, w: string, k: string)
    ensures QtyWhere(OfWorker(es, w), KindOf, k) == PairQty(es, w, k)
  {
    if es != [] {
      OfWorkerKind(es[1..], w, k);
      var rest := OfWorker(es[1..], w);
      if es[0].worker == w {
        assert OfWorker(es, w) == [es[0]] + rest;
        assert ([es[0]] + rest)[1..] == rest;
      } else {
        assert OfWorker(es, w) == [] + rest == rest;
      }
    }
  }

  lemma {:induction false} OfWorkerTotal(es: seq<LogEntry>, w: string)
    ensures IssuedTotal(OfWorker(es, w)) == QtyWhere(es, WorkerOf, w)
  {
    if es != [] {
      OfWorkerTotal(es[1..], w);
      var rest := OfWorker(es[1..], w);
      if es[0].worker == w {
        assert OfWorker(es, w) == [es[0]] + rest;
        assert ([es[0]] + rest)[1..] == rest;
      } else {
        assert OfWorker(es, w) == [] + rest == rest;
      }
    }
  }

  lemma {:induction false} PairQtyZero(es: seq<LogEntry>, w: string, k: string)
    requires forall j :: 0 <= j < |es| ==> !(es[j].worker == w && es[j].kind == k)
    ensures PairQty(es, w, k) == 0
  {
    if es != [] {
      assert forall j :: 0 <= j < |es| - 1 ==> es[1..][j] == es[j + 1];
      PairQtyZero(es[1..], w, k);
    }
  }

  /** Each cell is the sum issued for its worker and type, and 0 where nothing was. */
  lemma PivotCells(es: seq<LogEntry>, i: nat, j: nat)
    requires i < |PivotTable(es).rows| && j < |PivotTable(es).kinds|
    ensures var p := PivotTable(es);
      && p.rows[i].cells[j] == PairQty(es, p.rows[i].worker, p.kinds[j])
      && ((forall n :: 0 <= n < |es| ==> !(es[n].worker == p.rows[i].worker && es[n].kind == p.kinds[j]))
          ==> p.rows[i].cells[j] == 0)
  {
    var p := PivotTable(es);
    OfWorkerKind(es, p.rows[i].worker, p.kinds[j]);
    if forall n :: 0 <= n < |es| ==> !(es[n].worker == p.rows[i].worker && es[n].kind == p.kinds[j]) {
      PairQtyZero(es, p.rows[i].worker, p.kinds[j]);
    }
  }

  lemma {:induction false} SumCells(es: seq<LogEntry>, ks: seq<string>)
    ensures Sum(seq(|ks|, j requires 0 <= j < |ks| => QtyWhere(es, KindOf, ks[j]))) == SumOver(es, KindOf, ks)
  {
    if ks != [] {
      var cells := seq(|ks|, j requires 0 <= j < |ks| => QtyWhere(es, KindOf, ks[j]));
      assert cells[1..] == seq(|ks[1..]|, j requires 0 <= j < |ks[1..]| => QtyWhere(es, KindOf, ks[1..][j]));
      SumCells(es, ks[1..]);
    }
  }

  /** A pivot row's total is what the worker received in all: the same figure as the
      worker's row in the summary. */
  lemma PivotRowTotal(es: seq<LogEntry>, i: nat)
    requires i < |PivotTable(es).rows|
    ensures PivotTable(es).rows[i].total == IssuedTotal(OfWorker(es, PivotTable(es).rows[i].worker))
  {
    var p := PivotTable(es);
    var w := p.rows[i].worker;
    var mine := OfWorker(es, w);
    SumCells(mine, p.kinds);
    forall n | 0 <= n < |mine| ensures KindOf(mine[n]) in p.kinds {
      var m :| 0 <= m < |es| && es[m] == mine[n];
      assert es[m].kind == KindOf(mine[n]);
    }
    PartitionByKey(mine, KindOf, p.kinds);
  }

  // ---------------------------------------------------------------------------
  // The report's worker choices

  /** The worker list of the log report exactly as the program builds it:
      `["(összes)"] + sorted([d for d in naplo["Dolgozó"].dropna() if d])`,
      one entry per log row. */
  function ReportWorkerOptionsAsWritten(log: seq<LogEntry>): (r: seq<string>)
    ensures |r| >= 1 && r[0] == AllWorkers
    ensures SortedBy(NameLe, r[1..])
    ensures "" !in r[1..]
    ensures forall w :: w != "" ==> multiset(r[1..])[w] == multiset(Column(log, WorkerOf))[w]
  {
    var col := Column(log, WorkerOf);
    var sorted := SortedNames(NonEmpty(col));
    forall w | w != "" ensures multiset(sorted)[w] == multiset(col)[w] {
      NonEmptyCount(col, w);
    }
    SameMembers(sorted, NonEmpty(col));
    assert ([AllWorkers] + sorted)[1..] == sorted;
    [AllWorkers] + sorted
  }

  /** A registered worker who has received one item is offered twice. */
  lemma ReportWorkerOptionsRepeatNames()
    ensures var log := [WorkerPlaceholder("Anna"), LogEntry(Some(0), "Anna", "Jacket", "M", 1)];
            var r := ReportWorkerOptionsAsWritten(log);
            |r| == 3 && r[1] == r[2] == "Anna"
  {
    var log := [WorkerPlaceholder("Anna"), LogEntry(Some(0), "Anna", "Jacket", "M", 1)];
    var col := Column(log, WorkerOf);
    assert col == ["Anna", "Anna"];
    assert col[1..] == ["Anna"] && col[1..][1..] == [];
    assert NonEmpty(col[1..][1..]) == [];
    assert NonEmpty(col[1..]) == ["Anna"];
    assert NonEmpty(col) == ["Anna", "Anna"];
    var sorted := SortedNames(NonEmpty(col));
    assert multiset(sorted) == multiset{"Anna", "Anna"};
    assert |sorted| == 2;
    assert sorted[0] in multiset(sorted) && sorted[1] in multiset(sorted);
  }

  /** The worker list of the log report as intended: AllWorkers, then each non-empty
      worker name once, sorted. */
  function ReportWorkerOptions(log: seq<LogEntry>): (r: seq<string>)
    ensures |r| >= 1 && r[0] == AllWorkers
    ensures NoDuplicates(r[1..]) && SortedBy(NameLe, r[1..])
    ensures forall w :: w in r[1..] <==> w != "" && exists i :: 0 <= i < |log| && log[i].worker == w
  {
    var ws := WorkerChoices(log);
    var sorted := SortedNames(ws);
    NoDuplicatesPermutation(ws, sorted);
    SameMembers(ws, sorted);
    assert ([AllWorkers] + sorted)[1..] == sorted;
    [AllWorkers] + sorted
  }
}
