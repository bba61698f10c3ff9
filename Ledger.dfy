/** The issuance log: worker registration, the worker choice lists, and the log
    report's filter and order. */
module Ledger {
  import opened Tables
  import opened Seqs
  import opened Sorting

  function WorkerOf(e: LogEntry): string { e.worker }

  function KindOf(e: LogEntry): string { e.kind }

  /** One column of the log, `naplo[...]`. */
  function Column(es: seq<LogEntry>, key: LogEntry -> string): (r: seq<string>)
    ensures |r| == |es| && forall i :: 0 <= i < |es| ==> r[i] == key(es[i])
  {
    seq(|es|, i requires 0 <= i < |es| => key(es[i]))
  }

  /** The workers named in the rows. */
  function WorkerSet(es: seq<LogEntry>): set<string> {
    set i | 0 <= i < |es| :: es[i].worker
  }

  lemma WorkerColumn(es: seq<LogEntry>)
    ensures forall w :: w in Column(es, WorkerOf) <==> exists i :: 0 <= i < |es| && es[i].worker == w
  {
    var c := Column(es, WorkerOf);
    forall w | w in c ensures exists i :: 0 <= i < |es| && es[i].worker == w {
      var i :| 0 <= i < |c| && c[i] == w;
      assert es[i].worker == w;
    }
    forall i | 0 <= i < |es| ensures es[i].worker in c {
      assert c[i] == es[i].worker;
    }
  }

  lemma KindColumn(es: seq<LogEntry>)
    ensures forall k :: k in Column(es, KindOf) <==> exists i :: 0 <= i < |es| && es[i].kind == k
  {
    var c := Column(es, KindOf);
    forall k | k in c ensures exists i :: 0 <= i < |es| && es[i].kind == k {
      var i :| 0 <= i < |c| && c[i] == k;
      assert es[i].kind == k;
    }
    forall i | 0 <= i < |es| ensures es[i].kind in c {
      assert c[i] == es[i].kind;
    }
  }

  /** Every worker value in the log, each once: `naplo["Dolgozó"].unique().tolist()`. */
  function KnownWorkers(log: seq<LogEntry>): (r: seq<string>)
    ensures NoDuplicates(r)
    ensures forall w :: w in r <==> exists i :: 0 <= i < |log| && log[i].worker == w
  {
    WorkerColumn(log);
    Distinct(Column(log, WorkerOf))
  }

  /** `[d for d in xs if d]`. */
  function NonEmpty(xs: seq<string>): (r: seq<string>)
    ensures forall x :: x in r <==> x in xs && x != ""
    ensures NoDuplicates(xs) ==> NoDuplicates(r)
  {
    if xs == [] then []
    else
      var rest := NonEmpty(xs[1..]);
      assert forall x :: x in xs <==> x == xs[0] || x in xs[1..] by {
        assert xs == [xs[0]] + xs[1..];
      }
      assert NoDuplicates(xs) ==> xs[0] !in xs[1..] && NoDuplicates(xs[1..]) by {
        if NoDuplicates(xs) {
          forall i | 0 <= i < |xs| - 1 ensures xs[1..][i] != xs[0] {
            assert xs[1..][i] == xs[i + 1];
          }
        }
      }
      if xs[0] != "" then [xs[0]] + rest else rest
  }

  /** Dropping the empty names keeps every other name as often as it occurs. */
  lemma {:induction false} NonEmptyCount(xs: seq<string>, w: string)
    requires w != ""
    ensures multiset(NonEmpty(xs))[w] == multiset(xs)[w]
  {
    if xs != [] {
      NonEmptyCount(xs[1..], w);
      assert xs == [xs[0]] + xs[1..];
    }
  }

  /** The issue form's worker choices: distinct, non-empty worker names. */
  function WorkerChoices(log: seq<LogEntry>): (r: seq<string>)
    ensures NoDuplicates(r)
    ensures forall w :: w in r <==> w != "" && exists i :: 0 <= i < |log| && log[i].worker == w
  {
    NonEmpty(KnownWorkers(log))
  }

  /** The log after "Dolgozó hozzáadása" of w: the old rows, in place, followed by at
      most one new row, the placeholder of w; the workers offered gain w when it is
      non-empty. */
  function WithWorker(log: seq<LogEntry>, w: string): (r: seq<LogEntry>)
    ensures |log| <= |r| <= |log| + 1 && r[..|log|] == log
    ensures |r| == |log| + 1 <==> w != "" && w !in KnownWorkers(log)
    ensures |r| == |log| + 1 ==> r[|log|] == WorkerPlaceholder(w)
    ensures forall v :: v in KnownWorkers(r) <==> v in KnownWorkers(log) || (v == w && w != "")
    ensures forall v :: v in WorkerChoices(r) <==> v in WorkerChoices(log) || (v == w && w != "")
  {
    var r := if w != "" && w !in KnownWorkers(log) then log + [WorkerPlaceholder(w)] else log;
    assert forall v :: v in KnownWorkers(r) <==> v in KnownWorkers(log) || (v == w && w != "") by {
      if r != log {
        assert r[|log|].worker == w;
        forall v | v in KnownWorkers(r) && v != w ensures v in KnownWorkers(log) {
          var i :| 0 <= i < |r| && r[i].worker == v;
          assert log[i].worker == v;
        }
        forall v | v in KnownWorkers(log) ensures v in KnownWorkers(r) {
          var i :| 0 <= i < |log| && log[i].worker == v;
          assert r[i].worker == v;
        }
      }
    }
    r
  }

  /** Registering the same worker twice is the same as registering them once. */
  lemma WithWorkerIdempotent(log: seq<LogEntry>, w: string)
    ensures WithWorker(WithWorker(log, w), w) == WithWorker(log, w)
  {
  }

  // ---------------------------------------------------------------------------
  // What the log holds

  /** A row written by a successful issue: dated, for a non-blank worker, of at least one piece. */
  predicate IsIssuance(e: LogEntry) {
    e.date.Some? && !IsBlank(e.worker) && e.quantity >= 1
  }

  /** Every row is an issuance or the placeholder of a registered, non-empty worker name. */
  predicate WellFormed(log: seq<LogEntry>) {
    forall i :: 0 <= i < |log| ==>
      IsIssuance(log[i]) || (log[i] == WorkerPlaceholder(log[i].worker) && log[i].worker != "")
  }

  /** The dated rows of the log, in order: the issuances. */
  function Issuances(log: seq<LogEntry>): seq<LogEntry> {
    if log == [] then []
    else (if log[0].date.Some? then [log[0]] else []) + Issuances(log[1..])
  }

  /** Worker registration never adds or changes an issuance. */
  lemma {:induction false} WithWorkerIssuances(log: seq<LogEntry>, w: string)
    ensures Issuances(WithWorker(log, w)) == Issuances(log)
  {
    if w != "" && w !in KnownWorkers(log) {
      AppendDateless(log, WorkerPlaceholder(w));
    }
  }

  lemma {:induction false} AppendDateless(log: seq<LogEntry>, e: LogEntry)
    requires e.date.None?
    ensures Issuances(log + [e]) == Issuances(log)
  {
    if log == [] {
      assert Issuances([e]) == [] + Issuances([e][1..]);
    } else {
      assert (log + [e])[1..] == log[1..] + [e];
      AppendDateless(log[1..], e);
    }
  }

  /** Everything handed out, summed over every row (placeholders add 0). */
  function IssuedTotal(log: seq<LogEntry>): int {
    if log == [] then 0 else log[0].quantity + IssuedTotal(log[1..])
  }

  lemma {:induction false} IssuedTotalAppend(log: seq<LogEntry>, e: LogEntry)
    ensures IssuedTotal(log + [e]) == IssuedTotal(log) + e.quantity
  {
    if log != [] {
      assert (log + [e])[1..] == log[1..] + [e];
      IssuedTotalAppend(log[1..], e);
    }
  }

  // ---------------------------------------------------------------------------
  // The log report's filter and order

  /** A row passes the report filter when it belongs to the chosen worker (or
      AllWorkers is chosen) and its day lies between from and to, both included.
      A row without a date never passes. */
  predicate Selected(e: LogEntry, chosen: string, from: int, to: int) {
    && (chosen == AllWorkers || e.worker == chosen)
    && e.date.Some?
    && from <= DayOf(e.date.value) <= to
  }

  /** The report's rows, in log order. Nothing selected gives the empty table. */
  function Filtered(log: seq<LogEntry>, chosen: string, from: int, to: int): (r: seq<LogEntry>)
    ensures forall i :: 0 <= i < |r| ==> Selected(r[i], chosen, from, to)
    ensures forall e :: multiset(r)[e] == if Selected(e, chosen, from, to) then multiset(log)[e] else 0
  {
    if log == [] then []
    else
      assert log == [log[0]] + log[1..];
      (if Selected(log[0], chosen, from, to) then [log[0]] else []) + Filtered(log[1..], chosen, from, to)
  }

  /** The report's table: the filtered rows, latest first. */
  function LogView(log: seq<LogEntry>, chosen: string, from: int, to: int): (r: seq<LogEntry>)
    ensures SortedBy(NewerOrSame, r)
    ensures forall e :: multiset(r)[e] == if Selected(e, chosen, from, to) then multiset(log)[e] else 0
  {
    NewestFirst(Filtered(log, chosen, from, to))
  }

  /** When no row passes the filter the report is simply empty. */
  lemma NothingSelected(log: seq<LogEntry>, chosen: string, from: int, to: int)
    requires forall i :: 0 <= i < |log| ==> !Selected(log[i], chosen, from, to)
    ensures LogView(log, chosen, from, to) == []
  {
    var r := LogView(log, chosen, from, to);
    forall e ensures multiset(r)[e] == 0 {
      if e in log {
        var i :| 0 <= i < |log| && log[i] == e;
      }
    }
    assert multiset(r) == multiset{};
  }

  /** A registered worker's placeholder row never shows in the report. */
  lemma PlaceholderHidden(log: seq<LogEntry>, chosen: string, from: int, to: int, w: string)
    ensures WorkerPlaceholder(w) !in LogView(log, chosen, from, to)
  {
    var r := LogView(log, chosen, from, to);
    assert multiset(r)[WorkerPlaceholder(w)] == 0;
  }
}
