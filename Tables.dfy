/** The two tables the workwear tracker keeps, and the constants it uses.

    The stock table ("raktár") holds one row per garment type and size with the
    quantity on hand; the issuance log ("napló") holds one row per item handed to
    a worker. Both are ordered sequences: pandas keeps row order on append,
    update and drop. */
module Tables {

  datatype Option<T> = None | Some(value: T)

  /** A stock row: garment type ("Típus"), size ("Méret"), quantity ("Mennyiség"). */
  datatype StockRecord = StockRecord(kind: string, size: string, quantity: int)

  /** An issuance log row. `date` is the moment of issue in seconds; it is None for
      the placeholder row that registers a worker, whose empty date parses to no date. */
  datatype LogEntry = LogEntry(date: Option<int>, worker: string, kind: string, size: string, quantity: int)

  /** Why an issue was refused; each is a message the program shows. */
  datatype IssueError =
    | BlankWorker        // "Adja meg a dolgozó nevét!"
    | NoSuchItem         // "Nincs ilyen típusú és méretű ruha a raktárban!"
    | InsufficientStock  // "Nincs elegendő készlet!"

  /** Rows holding less than this are flagged as low on stock. */
  const MinStock: int := 5

  /** The worker choice that means "every worker" in the log report. */
  const AllWorkers: string := "(összes)"

  const SecondsPerDay: int := 86400

  /** The calendar day of a timestamp (the `.dt.date` of the log report). */
  function DayOf(ts: int): (d: int)
    ensures d * SecondsPerDay <= ts < (d + 1) * SecondsPerDay
  {
    ts / SecondsPerDay
  }

  /** The row that registering garment type t adds to the stock table. */
  function TypePlaceholder(t: string): StockRecord {
    StockRecord(t, "", 0)
  }

  /** The row that registering worker w adds to the issuance log. */
  function WorkerPlaceholder(w: string): LogEntry {
    LogEntry(None, w, "", "", 0)
  }

  /** The characters Python's str.strip() removes when called without arguments. */
  predicate IsSpace(c: char) {
    || c == ' ' || c == '\t' || c == '\n' || c == '\r' || c == '\U{b}' || c == '\U{c}'
    || ('\U{1c}' <= c <= '\U{1f}') || c == '\U{85}' || c == '\U{a0}' || c == '\U{1680}'
    || ('\U{2000}' <= c <= '\U{200a}') || c == '\U{2028}' || c == '\U{2029}'
    || c == '\U{202f}' || c == '\U{205f}' || c == '\U{3000}'
  }

  /** `not w.strip()`: the name is empty or consists of whitespace only. */
  predicate IsBlank(w: string) {
    forall i :: 0 <= i < |w| ==> IsSpace(w[i])
  }
}
