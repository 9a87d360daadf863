/**
 * The single `orders` table both front ends share, modelled as a map from
 * primary key to row plus the AUTO_INCREMENT counter, with the SQL statements
 * the front ends issue as methods: INSERT, UPDATE ... WHERE id, DELETE ...
 * WHERE id, SELECT ... WHERE id, SELECT ... ORDER BY created_at DESC and the
 * receipt lookup `WHERE receipt_number LIKE 'prefix%' ORDER BY id DESC LIMIT 1`.
 */
module Orders {
  import opened Wrappers
  import opened Text
  import opened Pricing

  /**
   * The seven columns a save writes and an update rewrites. Weights are in
   * hundredths of a kilogram, `totalAmount` in hundredths of a rupee, and
   * `orderDate` is the `YYYY-MM-DD` text the front end sends.
   */
  datatype OrderData = OrderData(
    customerName: string,
    mobileNumber: string,
    orderDate: string,
    regularKg: int,
    blanketsKg: int,
    whitePieces: int,
    totalAmount: int)

  /** One row: the primary key, the optional receipt number, the seven columns and the insert timestamp. */
  datatype Order = Order(id: int, receipt: Option<string>, fields: OrderData, createdAt: int)

  /** The stored total is the bill of the very quantities stored beside it. */
  predicate Consistent(d: OrderData) {
    d.totalAmount == CalculateBill(d.regularKg, d.blanketsKg, d.whitePieces).total
  }

  /** The error MySQL raises when an INSERT repeats a value of the UNIQUE `receipt_number` column. */
  datatype DbError = DuplicateReceipt

  predicate ReceiptTaken(rows: map<int, Order>, receipt: string) {
    exists k :: k in rows && rows[k].receipt == Some(receipt)
  }

  /** `receipt_number LIKE 'prefix%'` for a prefix without wildcard characters. */
  predicate HasReceiptPrefix(o: Order, prefix: string) {
    o.receipt.Some? && IsPrefix(prefix, o.receipt.value)
  }

  /** `last` is what `SELECT receipt_number ... LIKE 'prefix%' ORDER BY id DESC LIMIT 1` fetches. */
  ghost predicate IsLatestWithPrefix(rows: map<int, Order>, prefix: string, last: Option<string>) {
    match last
    case None => forall k :: k in rows ==> !HasReceiptPrefix(rows[k], prefix)
    case Some(r) =>
      exists k :: k in rows && HasReceiptPrefix(rows[k], prefix) && rows[k].receipt == Some(r) &&
        forall j :: j in rows && HasReceiptPrefix(rows[j], prefix) ==> j <= k
  }

  /** Ordered by `created_at` from newest to oldest. */
  predicate NewestFirst(s: seq<Order>) {
    forall i, j :: 0 <= i < j < |s| ==> s[i].createdAt >= s[j].createdAt
  }

  /** `list` holds every row of `rows` exactly once and nothing else. */
  ghost predicate ListsAllRows(list: seq<Order>, rows: map<int, Order>) {
    && (forall i :: 0 <= i < |list| ==> list[i].id in rows && rows[list[i].id] == list[i])
    && (forall k :: k in rows ==> rows[k] in list)
    && (forall i, j :: 0 <= i < j < |list| ==> list[i].id != list[j].id)
  }

  /** Where a row goes in a newest-first list: after every row at least as new. */
  function InsertionPoint(o: Order, s: seq<Order>): (p: nat)
    ensures p <= |s|
    ensures forall i :: 0 <= i < p ==> s[i].createdAt >= o.createdAt
    ensures p < |s| ==> s[p].createdAt < o.createdAt
  {
    if s == [] || s[0].createdAt < o.createdAt then 0 else 1 + InsertionPoint(o, s[1..])
  }

  /** The loop state of `LoadOrders`: `list` holds the rows whose keys are in `done`, each once. */
  ghost predicate PartialListing(list: seq<Order>, rows: map<int, Order>, done: set<int>) {
    && done <= rows.Keys
    && |list| == |done|
    && (forall i :: 0 <= i < |list| ==> list[i].id in done && rows[list[i].id] == list[i])
    && (forall k :: k in done ==> rows[k] in list)
    && (forall i, j :: 0 <= i < j < |list| ==> list[i].id != list[j].id)
  }

  /** Splicing a row in at its insertion point keeps a list newest-first. */
  lemma SpliceKeepsNewestFirst(s: seq<Order>, o: Order)
    requires NewestFirst(s)
    ensures NewestFirst(s[..InsertionPoint(o, s)] + [o] + s[InsertionPoint(o, s)..])
  {
    var p := InsertionPoint(o, s);
    var r := s[..p] + [o] + s[p..];
    forall i, j | 0 <= i < j < |r| ensures r[i].createdAt >= r[j].createdAt {
      if j < p {
        assert r[i] == s[i] && r[j] == s[j];
      } else if j == p {
        assert r[i] == s[i];
      } else if i == p {
        assert r[j] == s[j - 1] && s[p].createdAt < o.createdAt;
      } else if i < p {
        assert r[i] == s[i] && r[j] == s[j - 1];
      } else {
        assert r[i] == s[i - 1] && r[j] == s[j - 1];
      }
    }
  }

  /** Where each element of a spliced list comes from. */
  lemma SpliceAt(s: seq<Order>, o: Order, p: nat, r: seq<Order>)
    requires p <= |s| && r == s[..p] + [o] + s[p..]
    ensures |r| == |s| + 1
    ensures forall i :: 0 <= i < p ==> r[i] == s[i]
    ensures r[p] == o
    ensures forall i :: p < i < |r| ==> r[i] == s[i - 1]
  {
  }

  /** Splicing in the row of a key not yet listed extends the listing by that key. */
  lemma SpliceKeepsListing(s: seq<Order>, rows: map<int, Order>, done: set<int>, k: int, p: nat)
    requires PartialListing(s, rows, done)
    requires k in rows && k !in done && rows[k].id == k && p <= |s|
    ensures PartialListing(s[..p] + [rows[k]] + s[p..], rows, done + {k})
  {
    var r := s[..p] + [rows[k]] + s[p..];
    SpliceAt(s, rows[k], p, r);
    SpliceRowsListed(s, rows, done, k, p, r);
    SpliceIdsDistinct(s, rows, done, k, p, r);
  }

  lemma SpliceRowsListed(s: seq<Order>, rows: map<int, Order>, done: set<int>, k: int, p: nat, r: seq<Order>)
    requires PartialListing(s, rows, done)
    requires k in rows && k !in done && rows[k].id == k && p <= |s|
    requires |r| == |s| + 1
    requires forall i :: 0 <= i < p ==> r[i] == s[i]
    requires r[p] == rows[k]
    requires forall i :: p < i < |r| ==> r[i] == s[i - 1]
    ensures forall i :: 0 <= i < |r| ==> r[i].id in done + {k} && rows[r[i].id] == r[i]
    ensures forall x :: x in done + {k} ==> rows[x] in r
  {
    forall i | 0 <= i < |r|
      ensures r[i].id in done + {k} && rows[r[i].id] == r[i]
    {
      if i < p {
        assert r[i] == s[i];
      } else if i > p {
        assert r[i] == s[i - 1];
      }
    }
    forall x | x in done + {k}
      ensures rows[x] in r
    {
      if x != k {
        var i :| 0 <= i < |s| && s[i] == rows[x];
        if i < p {
          assert r[i] == rows[x];
        } else {
          assert r[i + 1] == rows[x];
        }
      }
    }
  }

  lemma SpliceIdsDistinct(s: seq<Order>, rows: map<int, Order>, done: set<int>, k: int, p: nat, r: seq<Order>)
    requires PartialListing(s, rows, done)
    requires k in rows && k !in done && rows[k].id == k && p <= |s|
    requires |r| == |s| + 1
    requires forall i :: 0 <= i < p ==> r[i] == s[i]
    requires r[p] == rows[k]
    requires forall i :: p < i < |r| ==> r[i] == s[i - 1]
    ensures forall i, j :: 0 <= i < j < |r| ==> r[i].id != r[j].id
  {
    forall i, j | 0 <= i < j < |r|
      ensures r[i].id != r[j].id
    {
      if i == p {
        assert r[j] == s[j - 1];
      } else if j == p {
        assert r[i] == s[i];
      } else if j < p {
        assert r[i] == s[i] && r[j] == s[j];
      } else if i < p {
        assert r[i] == s[i] && r[j] == s[j - 1];
      } else {
        assert r[i] == s[i - 1] && r[j] == s[j - 1];
      }
    }
  }

  /** A listing of every key is the full listing of the table. */
  lemma CompleteListing(list: seq<Order>, rows: map<int, Order>)
    requires PartialListing(list, rows, rows.Keys)
    ensures ListsAllRows(list, rows) && |list| == |rows|
  {
  }

  /** Once the walk passes every key, the keys seen are all the keys. */
  lemma AllKeysBelow(done: set<int>, rows: map<int, Order>, bound: int)
    requires forall k :: k in rows ==> k < bound
    requires forall k :: k in done <==> k in rows && k < bound
    ensures done == rows.Keys
  {
    assert forall k :: k in done <==> k in rows.Keys;
  }

  /** One step of the walk: splicing in the row of key `id` keeps the walk's invariant. */
  lemma WalkStep(list: seq<Order>, rows: map<int, Order>, done: set<int>, id: int)
    requires NewestFirst(list) && PartialListing(list, rows, done)
    requires forall k :: k in done <==> k in rows && k < id
    requires id in rows && rows[id].id == id
    ensures var p := InsertionPoint(rows[id], list);
            var list' := list[..p] + [rows[id]] + list[p..];
            NewestFirst(list') && PartialListing(list', rows, done + {id})
    ensures forall k :: k in done + {id} <==> k in rows && k < id + 1
  {
    SpliceKeepsNewestFirst(list, rows[id]);
    SpliceKeepsListing(list, rows, done, id, InsertionPoint(rows[id], list));
  }

  class OrdersTable {
    /** The rows, by primary key. */
    var rows: map<int, Order>
    /** The AUTO_INCREMENT counter: the id the next INSERT receives. */
    var nextId: int

    ghost predicate Valid()
      reads this
    {
      && nextId >= 1
      && forall k :: k in rows ==> 1 <= k < nextId && rows[k].id == k
    }

    constructor ()
      ensures Valid() && rows == map[] && nextId == 1
    {
      rows := map[];
      nextId := 1;
    }

    /**
     * INSERT of one row; `now` is CURRENT_TIMESTAMP. A receipt number already
     * in the table violates the UNIQUE constraint and the row is not written;
     * InnoDB still consumes the AUTO_INCREMENT value in that case.
     */
    method Insert(receipt: Option<string>, d: OrderData, now: int) returns (r: Result<int, DbError>)
      requires Valid()
      modifies this
      ensures Valid()
      ensures nextId == old(nextId) + 1
      ensures receipt.Some? && ReceiptTaken(old(rows), receipt.value) ==>
                r == Err(DuplicateReceipt) && rows == old(rows)
      ensures !(receipt.Some? && ReceiptTaken(old(rows), receipt.value)) ==>
                r == Ok(old(nextId)) && old(nextId) !in old(rows) &&
                rows == old(rows)[old(nextId) := Order(old(nextId), receipt, d, now)]
    {
      if receipt.Some? && ReceiptTaken(rows, receipt.value) {
        r := Err(DuplicateReceipt);
      } else {
        r := Ok(nextId);
        rows := rows[nextId := Order(nextId, receipt, d, now)];
      }
      nextId := nextId + 1;
    }

    /**
     * `update_order`: UPDATE of the seven columns of the row whose id is `id`.
     * The primary key, the receipt number and `created_at` stay; a missing id
     * changes nothing, and the function still reports success.
     */
    method Update(id: int, d: OrderData) returns (ok: bool)
      requires Valid()
      modifies this
      ensures Valid() && ok && nextId == old(nextId)
      ensures id in old(rows) ==> rows == old(rows)[id := old(rows)[id].(fields := d)]
      ensures id !in old(rows) ==> rows == old(rows)
    {
      if id in rows {
        rows := rows[id := rows[id].(fields := d)];
      }
      ok := true;
    }

    /** `delete_order`: DELETE of the row whose id is `id`; success is reported whether or not one matched. */
    method Delete(id: int) returns (ok: bool)
      requires Valid()
      modifies this
      ensures Valid() && ok && nextId == old(nextId)
      ensures rows == old(rows) - {id}
    {
      rows := rows - {id};
      ok := true;
    }

    /** `get_order_by_id`: the row with that id, or None. */
    method GetById(id: int) returns (r: Option<Order>)
      requires Valid()
      ensures r.Some? <==> id in rows
      ensures r.Some? ==> r.value == rows[id] && r.value.id == id
    {
      r := if id in rows then Some(rows[id]) else None;
    }

    /**
     * `load_orders`: `SELECT * FROM orders ORDER BY created_at DESC`. The loop
     * stands for the database's sort: it visits the keys in increasing order
     * and splices each row in after every row at least as new, so rows with
     * equal timestamps come out oldest key first.
     */
    method LoadOrders() returns (list: seq<Order>)
      requires Valid()
      ensures NewestFirst(list)
      ensures ListsAllRows(list, rows)
      ensures |list| == |rows|
    {
      list := [];
      ghost var done: set<int> := {};
      var id := 1;
      while id < nextId
        invariant 1 <= id <= nextId
        invariant forall k :: k in done <==> k in rows && k < id
        invariant NewestFirst(list)
        invariant PartialListing(list, rows, done)
      {
        if id in rows {
          var p := InsertionPoint(rows[id], list);
          WalkStep(list, rows, done, id);
          list := list[..p] + [rows[id]] + list[p..];
          done := done + {id};
        }
        id := id + 1;
      }
      AllKeysBelow(done, rows, nextId);
      CompleteListing(list, rows);
    }

    /**
     * The receipt lookup of `generate_receipt_number`: walking the keys from
     * the highest down, the receipt of the first row whose receipt starts with
     * `prefix`.
     */
    method LatestReceiptWithPrefix(prefix: string) returns (last: Option<string>)
      requires Valid()
      ensures IsLatestWithPrefix(rows, prefix, last)
    {
      var id := nextId - 1;
      while id >= 1
        invariant 0 <= id < nextId
        invariant forall k :: k in rows && k > id ==> !HasReceiptPrefix(rows[k], prefix)
      {
        if id in rows && HasReceiptPrefix(rows[id], prefix) {
          last := rows[id].receipt;
          assert id in rows && HasReceiptPrefix(rows[id], prefix) && rows[id].receipt == Some(last.value);
          return;
        }
        id := id - 1;
      }
      last := None;
    }
  }
}
