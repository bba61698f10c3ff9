/** Sorting as the reports use it: Python's `sorted` on worker and type names, and
    pandas' `sort_values("Dátum", ascending=False)` on the log. */
module Sorting {
  import opened Tables

  ghost predicate IsTotalPreorder<T(!new)>(le: (T, T) -> bool) {
    && (forall x, y :: le(x, y) || le(y, x))
    && (forall x, y, z :: le(x, y) && le(y, z) ==> le(x, z))
  }

  predicate SortedBy<T>(le: (T, T) -> bool, xs: seq<T>) {
    forall i, j :: 0 <= i < j < |xs| ==> le(xs[i], xs[j])
  }

  /** Places x before the first element it is ordered before. */
  function Insert<T(!new)>(le: (T, T) -> bool, x: T, xs: seq<T>): (r: seq<T>)
    requires IsTotalPreorder(le) && SortedBy(le, xs)
    ensures SortedBy(le, r)
    ensures multiset(r) == multiset(xs) + multiset{x}
  {
    if xs == [] || le(x, xs[0]) then [x] + xs
    else
      var rest := Insert(le, x, xs[1..]);
      assert xs == [xs[0]] + xs[1..];
      assert forall k :: 0 <= k < |rest| ==> le(xs[0], rest[k]) by {
        forall k | 0 <= k < |rest| ensures le(xs[0], rest[k]) {
          assert rest[k] in multiset(rest);
          if rest[k] != x {
            assert rest[k] in xs[1..];
          }
        }
      }
      [xs[0]] + rest
  }

  /** xs in the order le gives, as a rearrangement of xs. */
  function InsertionSort<T(!new)>(le: (T, T) -> bool, xs: seq<T>): (r: seq<T>)
    requires IsTotalPreorder(le)
    ensures SortedBy(le, r)
    ensures multiset(r) == multiset(xs)
  {
    if xs == [] then []
    else
      assert xs == [xs[0]] + xs[1..];
      Insert(le, xs[0], InsertionSort(le, xs[1..]))
  }

  /** Python's string order: lexicographic by code point, a prefix first. */
  predicate NameLe(a: string, b: string) {
    if a == [] then true
    else if b == [] then false
    else if a[0] != b[0] then a[0] < b[0]
    else NameLe(a[1..], b[1..])
  }

  lemma {:induction false} NameLeTotal(a: string, b: string)
    ensures NameLe(a, b) || NameLe(b, a)
  {
    if a != [] && b != [] && a[0] == b[0] {
      NameLeTotal(a[1..], b[1..]);
    }
  }

  lemma {:induction false} NameLeTransitive(a: string, b: string, c: string)
    requires NameLe(a, b) && NameLe(b, c)
    ensures NameLe(a, c)
  {
    if a != [] && b != [] && c != [] && a[0] == b[0] && b[0] == c[0] {
      NameLeTransitive(a[1..], b[1..], c[1..]);
    }
  }

  /** Two names ordered both ways are the same name. */
  lemma {:induction false} NameLeAntisymmetric(a: string, b: string)
    requires NameLe(a, b) && NameLe(b, a)
    ensures a == b
  {
    if a != [] && b != [] {
      NameLeAntisymmetric(a[1..], b[1..]);
      assert a == [a[0]] + a[1..] && b == [b[0]] + b[1..];
    }
  }

  lemma NameOrder()
    ensures IsTotalPreorder(NameLe)
  {
    forall x, y ensures NameLe(x, y) || NameLe(y, x) {
      NameLeTotal(x, y);
    }
    forall x, y, z | NameLe(x, y) && NameLe(y, z) ensures NameLe(x, z) {
      NameLeTransitive(x, y, z);
    }
  }

  /** Names sorted as Python's `sorted` sorts them. */
  function SortedNames(xs: seq<string>): (r: seq<string>)
    ensures SortedBy(NameLe, r)
    ensures multiset(r) == multiset(xs)
  {
    NameOrder();
    InsertionSort(NameLe, xs)
  }

  /** Two sorted rearrangements of the same non-empty names start with the same name. */
  lemma SortedHeads(a: seq<string>, b: seq<string>)
    requires SortedBy(NameLe, a) && SortedBy(NameLe, b) && multiset(a) == multiset(b)
    requires a != []
    ensures b != [] && a[0] == b[0]
  {
    assert a[0] in multiset(b) && b[0] in multiset(a);
    var i :| 0 <= i < |a| && a[i] == b[0];
    var j :| 0 <= j < |b| && b[j] == a[0];
    NameLeTotal(a[0], a[0]);
    NameLeTotal(b[0], b[0]);
    assert NameLe(a[0], a[i]) && NameLe(b[0], b[j]);
    NameLeAntisymmetric(a[0], b[0]);
  }

  /** There is only one way to sort names: two sorted rearrangements of the same names
      are equal, so `SortedNames` is exactly Python's `sorted`. */
  lemma {:induction false} SortedNamesUnique(a: seq<string>, b: seq<string>)
    requires SortedBy(NameLe, a) && SortedBy(NameLe, b) && multiset(a) == multiset(b)
    ensures a == b
    decreases |a|
  {
    if a != [] {
      SortedHeads(a, b);
      assert a == [a[0]] + a[1..] && b == [b[0]] + b[1..];
      assert multiset(a[1..]) == multiset(a) - multiset{a[0]};
      assert multiset(b[1..]) == multiset(b) - multiset{b[0]};
      SortedNamesUnique(a[1..], b[1..]);
    } else {
      assert |b| == |multiset(b)| == 0;
    }
  }

  /** The log report's order: later timestamps first, rows without a date last. */
  predicate NewerOrSame(a: LogEntry, b: LogEntry) {
    match (a.date, b.date)
    case (Some(x), Some(y)) => x >= y
    case (Some(_), None) => true
    case (None, Some(_)) => false
    case (None, None) => true
  }

  lemma NewestFirstOrder()
    ensures IsTotalPreorder(NewerOrSame)
  {
  }

  /** The log sorted by date, descending. */
  function NewestFirst(es: seq<LogEntry>): (r: seq<LogEntry>)
    ensures SortedBy(NewerOrSame, r)
    ensures multiset(r) == multiset(es)
  {
    NewestFirstOrder();
    InsertionSort(NewerOrSame, es)
  }
}
