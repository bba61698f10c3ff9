/** The program's state and the four buttons that change it: "Bevitel" (stock-in),
    "Kiadás" (issue), "Típus hozzáadása" and "Dolgozó hozzáadása" (registration). */
module Workwear {
  import opened Tables
  import Inventory
  import Ledger

  datatype IssueOutcome = Issued(remaining: int) | Rejected(error: IssueError)

  /** The session's two tables. The program loads them from CSV at start and writes
      each one back after it changes; the model keeps them in memory only. */
  class Store {
    var stock: seq<StockRecord>
    var log: seq<LogEntry>

    /** No negative quantity, one row per (type, size), and a log of issuances and
        worker placeholders only. */
    ghost predicate Valid()
      reads this
    {
      Inventory.Valid(stock) && Ledger.WellFormed(log)
    }

    /** The tables as loaded. */
    constructor (stock0: seq<StockRecord>, log0: seq<LogEntry>)
      ensures stock == stock0 && log == log0
    {
      stock := stock0;
      log := log0;
    }

    /** Stock-in of q pieces; refused, with nothing changed, when type or size is empty. */
    method StockIn(t: string, s: string, q: int) returns (ok: bool)
      requires q >= 1
      modifies this
      ensures ok <==> t != "" && s != ""
      ensures stock == Inventory.Restocked(old(stock), t, s, q)
      ensures log == old(log)
      ensures old(Valid()) ==>
        Inventory.QuantityOf(stock, t, s) == Inventory.QuantityOf(old(stock), t, s) + (if ok then q else 0)
      ensures old(Valid()) ==>
        Inventory.TotalQuantity(stock) == Inventory.TotalQuantity(old(stock)) + (if ok then q else 0)
      ensures old(Valid()) ==> Valid()
    {
      if Inventory.Valid(stock) {
        Inventory.RestockedValid(stock, t, s, q);
        Inventory.RestockedQuantity(stock, t, s, q, t, s);
        Inventory.RestockedTotal(stock, t, s, q);
      }
      ok := t != "" && s != "";
      if ok {
        if Inventory.HasKey(stock, t, s) {
          stock := Inventory.Bumped(stock, t, s, q);
        } else {
          stock := stock + [StockRecord(t, s, q)];
        }
      }
    }

    /** Issue q pieces of (t, s) to a worker at time `now`: all or nothing. On success
        the stock row loses q (and goes when it reaches 0) and the log gains exactly one
        entry; on refusal neither table changes. */
    method Issue(worker: string, t: string, s: string, q: int, now: int) returns (outcome: IssueOutcome)
      requires q >= 1
      modifies this
      ensures IsBlank(worker) ==> outcome == Rejected(BlankWorker)
      ensures !IsBlank(worker) ==>
        match Inventory.Withdraw(old(stock), t, s, q)
        case Withdrawn(_, left) => outcome == Issued(left)
        case Refused(e) => outcome == Rejected(e)
      ensures outcome.Rejected? ==> stock == old(stock) && log == old(log)
      ensures outcome.Issued? ==>
        && stock == Inventory.Withdraw(old(stock), t, s, q).rest
        && log == old(log) + [LogEntry(Some(now), worker, t, s, q)]
      ensures Inventory.TotalQuantity(stock) + Ledger.IssuedTotal(log)
           == old(Inventory.TotalQuantity(stock) + Ledger.IssuedTotal(log))
      ensures old(Valid()) ==> Valid()
    {
      if IsBlank(worker) {
        return Rejected(BlankWorker);
      }
      match Inventory.Withdraw(stock, t, s, q)
      case Refused(e) =>
        outcome := Rejected(e);
      case Withdrawn(rest, left) =>
        Inventory.WithdrawnTotal(stock, t, s, q);
        if Inventory.Valid(stock) {
          Inventory.WithdrawnValid(stock, t, s, q);
        }
        var entry := LogEntry(Some(now), worker, t, s, q);
        Ledger.IssuedTotalAppend(log, entry);
        stock := rest;
        log := log + [entry];
        outcome := Issued(left);
    }

    /** Register a garment type: a placeholder stock row for a new, non-empty type. */
    method AddType(t: string) returns (added: bool)
      modifies this
      ensures added <==> t != "" && t !in Inventory.TypeChoices(old(stock))
      ensures stock == Inventory.WithType(old(stock), t)
      ensures log == old(log)
      ensures old(Valid()) ==> Valid()
    {
      if Inventory.Valid(stock) {
        Inventory.WithTypeValid(stock, t);
      }
      added := t != "" && t !in Inventory.TypeChoices(stock);
      if added {
        stock := stock + [TypePlaceholder(t)];
      }
    }

    /** Register a worker: a placeholder log row for a new, non-empty name. No issuance
        is added or changed. */
    method AddWorker(w: string) returns (added: bool)
      modifies this
      ensures added <==> w != "" && w !in Ledger.KnownWorkers(old(log))
      ensures log == Ledger.WithWorker(old(log), w)
      ensures Ledger.Issuances(log) == Ledger.Issuances(old(log))
      ensures stock == old(stock)
      ensures old(Valid()) ==> Valid()
    {
      Ledger.WithWorkerIssuances(log, w);
      added := w != "" && w !in Ledger.KnownWorkers(log);
      if added {
        log := log + [WorkerPlaceholder(w)];
      }
    }
  }

  /** Stock 10 jackets of size M, then issue 3: 7 are left and the log gains one entry. */
  method ScenarioPartialIssue(now: int) {
    var store := new Store([], []);
    var ok := store.StockIn("Jacket", "M", 10);
    assert store.stock == [StockRecord("Jacket", "M", 10)];
    assert !IsBlank("Anna") by { assert !IsSpace("Anna"[0]); }
    var outcome := store.Issue("Anna", "Jacket", "M", 3, now);
    assert Inventory.FirstMatch([StockRecord("Jacket", "M", 10)], "Jacket", "M") == Some(0);
    assert outcome == Issued(7);
    assert store.log == [LogEntry(Some(now), "Anna", "Jacket", "M", 3)];
  }

  /** Stock 3, ask for 5: refused, 3 remain, the log is unchanged. */
  method ScenarioInsufficient(now: int) {
    var store := new Store([], []);
    var ok := store.StockIn("Jacket", "M", 3);
    assert !IsBlank("Anna") by { assert !IsSpace("Anna"[0]); }
    var outcome := store.Issue("Anna", "Jacket", "M", 5, now);
    assert Inventory.FirstMatch([StockRecord("Jacket", "M", 3)], "Jacket", "M") == Some(0);
    assert outcome == Rejected(InsufficientStock);
    assert store.stock == [StockRecord("Jacket", "M", 3)] && store.log == [];
  }

  /** Issuing from an empty store: no such item. */
  method ScenarioNoSuchItem(now: int) {
    var store := new Store([], []);
    assert !IsBlank("Anna") by { assert !IsSpace("Anna"[0]); }
    var outcome := store.Issue("Anna", "Boots", "42", 1, now);
    assert outcome == Rejected(NoSuchItem);
  }

  /** Stock 5 and issue 5: the row is gone and size M is no longer offered for jackets. */
  method ScenarioIssueAll(now: int) {
    var store := new Store([], []);
    var ok := store.StockIn("Jacket", "M", 5);
    assert !IsBlank("Anna") by { assert !IsSpace("Anna"[0]); }
    var outcome := store.Issue("Anna", "Jacket", "M", 5, now);
    assert Inventory.FirstMatch([StockRecord("Jacket", "M", 5)], "Jacket", "M") == Some(0);
    assert store.stock == [];
    assert "M" !in Inventory.SizeChoices(store.stock, "Jacket");
  }
}
