/** The stock table and the three operations that change it: stock-in, issue (the
    stock side) and type registration, each as a function from the old table to the
    new one, with the choice lists the issue form offers and the low-stock flag. */
module Inventory {
  import opened Tables
  import opened Seqs

  predicate Matches(r: StockRecord, t: string, s: string) {
    r.kind == t && r.size == s
  }

  /** Some row has key (t, s): `mask.any()`. */
  predicate HasKey(stock: seq<StockRecord>, t: string, s: string) {
    exists i :: 0 <= i < |stock| && Matches(stock[i], t, s)
  }

  predicate NonNegative(stock: seq<StockRecord>) {
    forall i :: 0 <= i < |stock| ==> stock[i].quantity >= 0
  }

  predicate UniqueKeys(stock: seq<StockRecord>) {
    forall i, j :: 0 <= i < j < |stock| ==> !Matches(stock[j], stock[i].kind, stock[i].size)
  }

  /** The table invariant: no negative quantity and at most one row per (type, size). */
  predicate Valid(stock: seq<StockRecord>) {
    NonNegative(stock) && UniqueKeys(stock)
  }

  /** The position of the first row with key (t, s): `df.index[mask][0]`. */
  function FirstMatch(stock: seq<StockRecord>, t: string, s: string): (r: Option<nat>)
    ensures r.None? <==> !HasKey(stock, t, s)
    ensures r.Some? ==> r.value < |stock| && Matches(stock[r.value], t, s)
    ensures r.Some? ==> forall j :: 0 <= j < r.value ==> !Matches(stock[j], t, s)
  {
    if stock == [] then None
    else if Matches(stock[0], t, s) then Some(0)
    else
      match FirstMatch(stock[1..], t, s)
      case None =>
        assert forall i :: 1 <= i < |stock| ==> stock[i] == stock[1..][i - 1];
        None
      case Some(i) => Some(i + 1)
  }

  /** Everything held under key (t, s), summed over the rows with that key. */
  function QuantityOf(stock: seq<StockRecord>, t: string, s: string): int {
    if stock == [] then 0
    else (if Matches(stock[0], t, s) then stock[0].quantity else 0) + QuantityOf(stock[1..], t, s)
  }

  /** Everything in stock. */
  function TotalQuantity(stock: seq<StockRecord>): int {
    if stock == [] then 0 else stock[0].quantity + TotalQuantity(stock[1..])
  }

  // ---------------------------------------------------------------------------
  // Stock-in

  function Bump(r: StockRecord, t: string, s: string, q: int): StockRecord {
    if Matches(r, t, s) then r.(quantity := r.quantity + q) else r
  }

  /** `df.loc[mask, "Mennyiség"] += menny`: every row with key (t, s) gains q. */
  function Bumped(stock: seq<StockRecord>, t: string, s: string, q: int): seq<StockRecord> {
    seq(|stock|, i requires 0 <= i < |stock| => Bump(stock[i], t, s, q))
  }

  /** The stock table after "Bevitel" of q pieces of type t, size s. */
  function Restocked(stock: seq<StockRecord>, t: string, s: string, q: int): (r: seq<StockRecord>)
    ensures t == "" || s == "" ==> r == stock
    ensures t != "" && s != "" && HasKey(stock, t, s) ==>
      && |r| == |stock|
      && forall i :: 0 <= i < |stock| ==>
           && r[i].kind == stock[i].kind && r[i].size == stock[i].size
           && r[i].quantity == stock[i].quantity + (if Matches(stock[i], t, s) then q else 0)
    ensures t != "" && s != "" && !HasKey(stock, t, s) ==> r == stock + [StockRecord(t, s, q)]
  {
    if t == "" || s == "" then stock
    else if HasKey(stock, t, s) then Bumped(stock, t, s, q)
    else stock + [StockRecord(t, s, q)]
  }

  lemma {:induction false} QuantityOfAppend(stock: seq<StockRecord>, r: StockRecord, t: string, s: string)
    ensures QuantityOf(stock + [r], t, s) == QuantityOf(stock, t, s) + (if Matches(r, t, s) then r.quantity else 0)
  {
    if stock != [] {
      assert (stock + [r])[1..] == stock[1..] + [r];
      QuantityOfAppend(stock[1..], r, t, s);
    }
  }

  lemma {:induction false} TotalQuantityAppend(stock: seq<StockRecord>, r: StockRecord)
    ensures TotalQuantity(stock + [r]) == TotalQuantity(stock) + r.quantity
  {
    if stock != [] {
      assert (stock + [r])[1..] == stock[1..] + [r];
      TotalQuantityAppend(stock[1..], r);
    }
  }

  lemma {:induction false} BumpedQuantity(stock: seq<StockRecord>, t: string, s: string, q: int, t': string, s': string)
    ensures QuantityOf(Bumped(stock, t, s, q), t', s')
         == QuantityOf(stock, t', s') + (if t' == t && s' == s then q * Count(stock, t, s) else 0)
  {
    if stock != [] {
      assert Bumped(stock, t, s, q)[1..] == Bumped(stock[1..], t, s, q);
      BumpedQuantity(stock[1..], t, s, q, t', s');
    }
  }

  /** Number of rows with key (t, s). */
  function Count(stock: seq<StockRecord>, t: string, s: string): nat {
    if stock == [] then 0 else (if Matches(stock[0], t, s) then 1 else 0) + Count(stock[1..], t, s)
  }

  /** Under the unique-key invariant a present key has exactly one row. */
  lemma {:induction false} CountUnique(stock: seq<StockRecord>, t: string, s: string)
    requires UniqueKeys(stock)
    ensures Count(stock, t, s) == if HasKey(stock, t, s) then 1 else 0
  {
    if stock != [] {
      CountUnique(stock[1..], t, s);
      if Matches(stock[0], t, s) {
        assert !HasKey(stock[1..], t, s) by {
          forall i | 0 <= i < |stock| - 1 ensures !Matches(stock[1..][i], t, s) {
            assert stock[1..][i] == stock[i + 1];
          }
        }
      } else {
        assert HasKey(stock, t, s) ==> HasKey(stock[1..], t, s) by {
          if HasKey(stock, t, s) {
            var i :| 0 <= i < |stock| && Matches(stock[i], t, s);
            assert stock[1..][i - 1] == stock[i];
          }
        }
      }
    }
  }

  /** Stock-in adds exactly q to key (t, s) and leaves every other key's holding alone. */
  lemma RestockedQuantity(stock: seq<StockRecord>, t: string, s: string, q: int, t': string, s': string)
    requires UniqueKeys(stock)
    ensures QuantityOf(Restocked(stock, t, s, q), t', s')
         == QuantityOf(stock, t', s') + (if t != "" && s != "" && t' == t && s' == s then q else 0)
  {
    if t != "" && s != "" {
      if HasKey(stock, t, s) {
        BumpedQuantity(stock, t, s, q, t', s');
        CountUnique(stock, t, s);
      } else {
        QuantityOfAppend(stock, StockRecord(t, s, q), t', s');
      }
    }
  }

  lemma {:induction false} BumpedTotal(stock: seq<StockRecord>, t: string, s: string, q: int)
    ensures TotalQuantity(Bumped(stock, t, s, q)) == TotalQuantity(stock) + q * Count(stock, t, s)
  {
    if stock != [] {
      assert Bumped(stock, t, s, q)[1..] == Bumped(stock[1..], t, s, q);
      BumpedTotal(stock[1..], t, s, q);
    }
  }

  /** Stock-in of a valid pair adds exactly q to everything in stock. */
  lemma RestockedTotal(stock: seq<StockRecord>, t: string, s: string, q: int)
    requires UniqueKeys(stock)
    ensures TotalQuantity(Restocked(stock, t, s, q)) == TotalQuantity(stock) + (if t != "" && s != "" then q else 0)
  {
    if t != "" && s != "" {
      if HasKey(stock, t, s) {
        BumpedTotal(stock, t, s, q);
        CountUnique(stock, t, s);
      } else {
        TotalQuantityAppend(stock, StockRecord(t, s, q));
      }
    }
  }

  /** Stock-in of a positive quantity keeps quantities non-negative and keys unique. */
  lemma RestockedValid(stock: seq<StockRecord>, t: string, s: string, q: int)
    requires Valid(stock) && q >= 1
    ensures Valid(Restocked(stock, t, s, q))
  {
  }

  // ---------------------------------------------------------------------------
  // Issue, stock side

  datatype Withdrawal =
    | Withdrawn(rest: seq<StockRecord>, remaining: int)
    | Refused(error: IssueError)

  /** The stock side of "Kiadás": take q pieces from the first row with key (t, s),
      all or nothing, and drop that row when it reaches 0. */
  function Withdraw(stock: seq<StockRecord>, t: string, s: string, q: int): (r: Withdrawal)
    ensures r == Refused(NoSuchItem) <==> !HasKey(stock, t, s)
    ensures r == Refused(InsufficientStock) <==>
      HasKey(stock, t, s) && stock[FirstMatch(stock, t, s).value].quantity < q
    ensures r.Refused? ==> r.error != BlankWorker
    ensures r.Withdrawn? ==>
      var i := FirstMatch(stock, t, s).value;
      && r.remaining == stock[i].quantity - q >= 0
      && r.rest == stock[..i]
                   + (if r.remaining == 0 then [] else [stock[i].(quantity := r.remaining)])
                   + stock[i + 1..]
  {
    match FirstMatch(stock, t, s)
    case None => Refused(NoSuchItem)
    case Some(i) =>
      if stock[i].quantity >= q then
        var left := stock[i].quantity - q;
        if left == 0 then Withdrawn(stock[..i] + stock[i + 1..], 0)
        else Withdrawn(stock[i := stock[i].(quantity := left)], left)
      else Refused(InsufficientStock)
  }

  lemma {:induction false} QuantityOfConcat(a: seq<StockRecord>, b: seq<StockRecord>, t: string, s: string)
    ensures QuantityOf(a + b, t, s) == QuantityOf(a, t, s) + QuantityOf(b, t, s)
  {
    if a != [] {
      assert (a + b)[1..] == a[1..] + b;
      QuantityOfConcat(a[1..], b, t, s);
    } else {
      assert a + b == b;
    }
  }

  lemma {:induction false} TotalQuantityConcat(a: seq<StockRecord>, b: seq<StockRecord>)
    ensures TotalQuantity(a + b) == TotalQuantity(a) + TotalQuantity(b)
  {
    if a != [] {
      assert (a + b)[1..] == a[1..] + b;
      TotalQuantityConcat(a[1..], b);
    } else {
      assert a + b == b;
    }
  }

  /** A successful issue takes exactly q from key (t, s) and nothing from any other key. */
  lemma WithdrawnQuantity(stock: seq<StockRecord>, t: string, s: string, q: int, t': string, s': string)
    requires Withdraw(stock, t, s, q).Withdrawn?
    ensures QuantityOf(Withdraw(stock, t, s, q).rest, t', s')
         == QuantityOf(stock, t', s') - (if t' == t && s' == s then q else 0)
  {
    var w := Withdraw(stock, t, s, q);
    var i := FirstMatch(stock, t, s).value;
    var mid := if w.remaining == 0 then [] else [stock[i].(quantity := w.remaining)];
    assert stock == stock[..i] + [stock[i]] + stock[i + 1..];
    QuantityOfConcat(stock[..i] + [stock[i]], stock[i + 1..], t', s');
    QuantityOfConcat(stock[..i], [stock[i]], t', s');
    QuantityOfConcat(stock[..i] + mid, stock[i + 1..], t', s');
    QuantityOfConcat(stock[..i], mid, t', s');
  }

  /** A successful issue lowers the whole stock by exactly q. */
  lemma WithdrawnTotal(stock: seq<StockRecord>, t: string, s: string, q: int)
    requires Withdraw(stock, t, s, q).Withdrawn?
    ensures TotalQuantity(Withdraw(stock, t, s, q).rest) == TotalQuantity(stock) - q
  {
    var w := Withdraw(stock, t, s, q);
    var i := FirstMatch(stock, t, s).value;
    var mid := if w.remaining == 0 then [] else [stock[i].(quantity := w.remaining)];
    assert stock == stock[..i] + [stock[i]] + stock[i + 1..];
    TotalQuantityConcat(stock[..i] + [stock[i]], stock[i + 1..]);
    TotalQuantityConcat(stock[..i], [stock[i]]);
    TotalQuantityConcat(stock[..i] + mid, stock[i + 1..]);
    TotalQuantityConcat(stock[..i], mid);
  }

  /** An issue keeps quantities non-negative and keys unique. */
  lemma WithdrawnValid(stock: seq<StockRecord>, t: string, s: string, q: int)
    requires Valid(stock)
    requires Withdraw(stock, t, s, q).Withdrawn?
    ensures Valid(Withdraw(stock, t, s, q).rest)
  {
    var w := Withdraw(stock, t, s, q);
    var i := FirstMatch(stock, t, s).value;
    if w.remaining == 0 {
      // the rows after i move up by one
      forall a, b | 0 <= a < b < |w.rest|
        ensures !Matches(w.rest[b], w.rest[a].kind, w.rest[a].size)
      {
        var a', b' := if a < i then a else a + 1, if b < i then b else b + 1;
        assert w.rest[a] == stock[a'] && w.rest[b] == stock[b'];
      }
    }
  }

  /** With unique keys, an issue that leaves 0 removes key (t, s) from the table and one
      that leaves more keeps it. */
  lemma WithdrawnRemovesAtZero(stock: seq<StockRecord>, t: string, s: string, q: int)
    requires UniqueKeys(stock)
    requires Withdraw(stock, t, s, q).Withdrawn?
    ensures HasKey(Withdraw(stock, t, s, q).rest, t, s) <==> Withdraw(stock, t, s, q).remaining > 0
  {
    var w := Withdraw(stock, t, s, q);
    var i := FirstMatch(stock, t, s).value;
    if w.remaining == 0 {
      forall k | 0 <= k < |w.rest| ensures !Matches(w.rest[k], t, s) {
        if k < i {
          assert w.rest[k] == stock[k];
        } else {
          assert w.rest[k] == stock[k + 1];
        }
      }
    } else {
      assert Matches(w.rest[i], t, s);
    }
  }

  /** A successful issue keeps every row other than the one it takes from. */
  lemma WithdrawnKeepsOthers(stock: seq<StockRecord>, t: string, s: string, q: int, j: int)
    requires Withdraw(stock, t, s, q).Withdrawn?
    requires 0 <= j < |stock| && j != FirstMatch(stock, t, s).value
    ensures stock[j] in Withdraw(stock, t, s, q).rest
  {
    var w := Withdraw(stock, t, s, q);
    var i := FirstMatch(stock, t, s).value;
    var mid := if w.remaining == 0 then [] else [stock[i].(quantity := w.remaining)];
    assert w.rest == stock[..i] + mid + stock[i + 1..];
    if j < i {
      assert stock[..i][j] == stock[j];
    } else {
      assert stock[i + 1..][j - i - 1] == stock[j];
    }
  }

  /** A type placeholder (quantity 0, empty size) is never taken away: stock-in needs
      a non-empty size and an issue of q >= 1 pieces from it is refused. */
  lemma PlaceholderPersists(stock: seq<StockRecord>, k: string, t: string, s: string, q: int)
    requires TypePlaceholder(k) in stock && q >= 1
    ensures TypePlaceholder(k) in Restocked(stock, t, s, q)
    ensures Withdraw(stock, t, s, q).Withdrawn? ==> TypePlaceholder(k) in Withdraw(stock, t, s, q).rest
  {
    var p := TypePlaceholder(k);
    var j :| 0 <= j < |stock| && stock[j] == p;
    if t != "" && s != "" && HasKey(stock, t, s) {
      assert Restocked(stock, t, s, q)[j] == p;
    }
    if Withdraw(stock, t, s, q).Withdrawn? {
      WithdrawnKeepsOthers(stock, t, s, q, j);
    }
  }

  // ---------------------------------------------------------------------------
  // Choice lists and type registration

  function Kinds(stock: seq<StockRecord>): seq<string> {
    seq(|stock|, i requires 0 <= i < |stock| => stock[i].kind)
  }

  /** The type choices, `raktar["Típus"].unique().tolist()`. */
  function TypeChoices(stock: seq<StockRecord>): (r: seq<string>)
    ensures NoDuplicates(r)
    ensures forall k :: k in r <==> exists i :: 0 <= i < |stock| && stock[i].kind == k
  {
    var ks := Kinds(stock);
    assert forall k :: k in ks <==> exists i :: 0 <= i < |stock| && stock[i].kind == k by {
      forall k ensures k in ks ==> exists i :: 0 <= i < |stock| && stock[i].kind == k {
        if k in ks {
          var i :| 0 <= i < |ks| && ks[i] == k;
          assert stock[i].kind == k;
        }
      }
      forall i | 0 <= i < |stock| ensures stock[i].kind in ks {
        assert ks[i] == stock[i].kind;
      }
    }
    Distinct(ks)
  }

  /** The sizes of the rows of type t, in table order. */
  function SizesOf(stock: seq<StockRecord>, t: string): (r: seq<string>)
    ensures forall z :: z in r <==> HasKey(stock, t, z)
  {
    if stock == [] then []
    else
      var rest := SizesOf(stock[1..], t);
      assert forall z :: HasKey(stock, t, z) <==> Matches(stock[0], t, z) || HasKey(stock[1..], t, z) by {
        forall z ensures HasKey(stock, t, z) ==> Matches(stock[0], t, z) || HasKey(stock[1..], t, z) {
          if HasKey(stock, t, z) && !Matches(stock[0], t, z) {
            var i :| 0 <= i < |stock| && Matches(stock[i], t, z);
            assert stock[1..][i - 1] == stock[i];
          }
        }
        forall z | HasKey(stock[1..], t, z) ensures HasKey(stock, t, z) {
          var i :| 0 <= i < |stock| - 1 && Matches(stock[1..][i], t, z);
          assert stock[i + 1] == stock[1..][i];
        }
      }
      if stock[0].kind == t then [stock[0].size] + rest else rest
  }

  /** The size choices for type t, `raktar[raktar["Típus"] == t]["Méret"].unique().tolist()`. */
  function SizeChoices(stock: seq<StockRecord>, t: string): (r: seq<string>)
    ensures NoDuplicates(r)
    ensures forall z :: z in r <==> HasKey(stock, t, z)
  {
    Distinct(SizesOf(stock, t))
  }

  /** With unique keys, after a successful issue size s is still offered for type t
      exactly when some of it is left. */
  lemma IssuedOutSizeDisappears(stock: seq<StockRecord>, t: string, s: string, q: int)
    requires UniqueKeys(stock)
    requires Withdraw(stock, t, s, q).Withdrawn?
    ensures s in SizeChoices(Withdraw(stock, t, s, q).rest, t) <==> Withdraw(stock, t, s, q).remaining > 0
  {
    WithdrawnRemovesAtZero(stock, t, s, q);
  }

  /** The stock table after "Típus hozzáadása" of t: the old rows, in place, followed by
      at most one new row, the placeholder of t; the known types gain t when it is
      non-empty. */
  function WithType(stock: seq<StockRecord>, t: string): (r: seq<StockRecord>)
    ensures |stock| <= |r| <= |stock| + 1 && r[..|stock|] == stock
    ensures |r| == |stock| + 1 <==> t != "" && t !in TypeChoices(stock)
    ensures |r| == |stock| + 1 ==> r[|stock|] == TypePlaceholder(t)
    ensures forall k :: k in TypeChoices(r) <==> k in TypeChoices(stock) || (k == t && t != "")
  {
    var r := if t != "" && t !in TypeChoices(stock) then stock + [TypePlaceholder(t)] else stock;
    assert forall k :: k in TypeChoices(r) <==> k in TypeChoices(stock) || (k == t && t != "") by {
      if r != stock {
        assert r[|stock|].kind == t;
        forall k | k in TypeChoices(r) && k != t ensures k in TypeChoices(stock) {
          var i :| 0 <= i < |r| && r[i].kind == k;
          assert stock[i].kind == k;
        }
        forall k | k in TypeChoices(stock) ensures k in TypeChoices(r) {
          var i :| 0 <= i < |stock| && stock[i].kind == k;
          assert r[i].kind == k;
        }
      }
    }
    r
  }

  /** Registering the same type twice is the same as registering it once. */
  lemma WithTypeIdempotent(stock: seq<StockRecord>, t: string)
    ensures WithType(WithType(stock, t), t) == WithType(stock, t)
  {
  }

  /** Registering a type keeps quantities non-negative and keys unique. */
  lemma WithTypeValid(stock: seq<StockRecord>, t: string)
    requires Valid(stock)
    ensures Valid(WithType(stock, t))
  {
    if t != "" && t !in TypeChoices(stock) {
      forall i | 0 <= i < |stock| ensures stock[i].kind != t {
        assert stock[i].kind in TypeChoices(stock);
      }
    }
  }

  // ---------------------------------------------------------------------------
  // Low-stock flag

  predicate IsLow(r: StockRecord) {
    r.quantity < MinStock
  }

  /** No row with key (t, s): nothing held under it. */
  lemma {:induction false} QuantityOfAbsent(stock: seq<StockRecord>, t: string, s: string)
    requires forall j :: 0 <= j < |stock| ==> !Matches(stock[j], t, s)
    ensures QuantityOf(stock, t, s) == 0
  {
    if stock != [] {
      assert forall j :: 0 <= j < |stock| - 1 ==> stock[1..][j] == stock[j + 1];
      QuantityOfAbsent(stock[1..], t, s);
    }
  }

  /** Under unique keys a row's quantity is everything held under its key. */
  lemma {:induction false} QuantityOfRow(stock: seq<StockRecord>, i: int)
    requires UniqueKeys(stock) && 0 <= i < |stock|
    ensures QuantityOf(stock, stock[i].kind, stock[i].size) == stock[i].quantity
  {
    var t, s := stock[i].kind, stock[i].size;
    if i == 0 {
      forall j | 0 <= j < |stock| - 1 ensures !Matches(stock[1..][j], t, s) {
        assert stock[1..][j] == stock[j + 1];
      }
      QuantityOfAbsent(stock[1..], t, s);
    } else {
      assert !Matches(stock[i], stock[0].kind, stock[0].size);
      forall a, b | 0 <= a < b < |stock| - 1
        ensures !Matches(stock[1..][b], stock[1..][a].kind, stock[1..][a].size)
      {
        assert stock[1..][a] == stock[a + 1] && stock[1..][b] == stock[b + 1];
      }
      assert stock[1..][i - 1] == stock[i];
      QuantityOfRow(stock[1..], i - 1);
    }
  }

  /** The stock listing's colouring: one flag per row, true (red) for rows under
      MinStock. Under unique keys a row is flagged exactly when everything held under
      its (type, size) is below MinStock. */
  function LowStockFlags(stock: seq<StockRecord>): (r: seq<bool>)
    ensures |r| == |stock|
    ensures UniqueKeys(stock) ==>
      forall i :: 0 <= i < |stock| ==> (r[i] <==> QuantityOf(stock, stock[i].kind, stock[i].size) < MinStock)
  {
    assert UniqueKeys(stock) ==>
      forall i :: 0 <= i < |stock| ==> QuantityOf(stock, stock[i].kind, stock[i].size) == stock[i].quantity by {
      if UniqueKeys(stock) {
        forall i | 0 <= i < |stock| ensures QuantityOf(stock, stock[i].kind, stock[i].size) == stock[i].quantity {
          QuantityOfRow(stock, i);
        }
      }
    }
    seq(|stock|, i requires 0 <= i < |stock| => IsLow(stock[i]))
  }

  /** Stocking in at least MinStock pieces clears the flag on that key's row. */
  lemma RestockedNotLow(stock: seq<StockRecord>, t: string, s: string, q: int)
    requires NonNegative(stock) && t != "" && s != "" && q >= MinStock
    ensures forall i :: 0 <= i < |Restocked(stock, t, s, q)| && Matches(Restocked(stock, t, s, q)[i], t, s) ==>
              !LowStockFlags(Restocked(stock, t, s, q))[i]
  {
  }
}
