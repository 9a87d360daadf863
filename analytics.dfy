/**
 * The figures of the analytics page, computed from the loaded rows: the key
 * metrics, revenue per day, revenue per service and the ten best customers.
 * Amounts are in hundredths of a rupee, weights in hundredths of a kilogram.
 */
module Analytics {
  import opened Pricing
  import opened Orders

  /**
   * `df['total_amount'].sum()`. When no total is negative, neither is the
   * revenue, and no single order exceeds it.
   */
  function TotalRevenue(rows: seq<Order>): (r: int)
    ensures (forall i :: 0 <= i < |rows| ==> rows[i].fields.totalAmount >= 0) ==>
              r >= 0 && forall i :: 0 <= i < |rows| ==> rows[i].fields.totalAmount <= r
  {
    if rows == [] then 0 else rows[0].fields.totalAmount + TotalRevenue(rows[1..])
  }

  /** `df['regular_clothes_kg'].sum()`. */
  function RegularKgSum(rows: seq<Order>): int {
    if rows == [] then 0 else rows[0].fields.regularKg + RegularKgSum(rows[1..])
  }

  /** `df['blankets_kg'].sum()`. */
  function BlanketsKgSum(rows: seq<Order>): int {
    if rows == [] then 0 else rows[0].fields.blanketsKg + BlanketsKgSum(rows[1..])
  }

  /** `df['white_clothes_pieces'].sum()`. */
  function WhitePiecesSum(rows: seq<Order>): int {
    if rows == [] then 0 else rows[0].fields.whitePieces + WhitePiecesSum(rows[1..])
  }

  /** The values of the revenue-by-service pie chart. */
  datatype ServiceRevenue = ServiceRevenue(regular: int, blankets: int, white: int)

  /**
   * Each service's revenue is its column sum times its rate: the three costs
   * of one bill for the summed quantities.
   */
  function ServiceBreakdown(rows: seq<Order>): (s: ServiceRevenue)
    ensures var b := CalculateBill(RegularKgSum(rows), BlanketsKgSum(rows), WhitePiecesSum(rows));
            s.regular == b.regularCost && s.blankets == b.blanketsCost && s.white == b.whiteCost
  {
    ServiceRevenue(RegularKgSum(rows) * RegularRate, BlanketsKgSum(rows) * BlanketsRate,
                   WhitePiecesSum(rows) * 100 * WhiteRate)
  }

  /**
   * When every stored total is the bill of its own quantities, the three
   * service revenues add up to the total revenue.
   */
  lemma {:induction false} ServiceRevenueAddsUp(rows: seq<Order>)
    requires forall i :: 0 <= i < |rows| ==> Consistent(rows[i].fields)
    ensures var s := ServiceBreakdown(rows); s.regular + s.blankets + s.white == TotalRevenue(rows)
  {
    if rows != [] {
      ServiceRevenueAddsUp(rows[1..]);
      assert Consistent(rows[0].fields);
    }
  }

  /** The revenue of rows split in two is the sum of the two revenues. */
  lemma {:induction false} TotalRevenueAppend(a: seq<Order>, b: seq<Order>)
    ensures TotalRevenue(a + b) == TotalRevenue(a) + TotalRevenue(b)
  {
    if a == [] {
      assert a + b == b;
    } else {
      assert (a + b)[1..] == a[1..] + b;
      TotalRevenueAppend(a[1..], b);
    }
  }

  // ---------------------------------------------------------------- customers

  /**
   * The set of customer names: every order's customer, and nothing else.
   * There are never more names than orders.
   */
  function Names(rows: seq<Order>): (names: set<string>)
    ensures forall i :: 0 <= i < |rows| ==> rows[i].fields.customerName in names
    ensures forall n :: n in names ==> exists i :: 0 <= i < |rows| && rows[i].fields.customerName == n
    ensures |names| <= |rows|
  {
    if rows == [] then {}
    else
      var rest := Names(rows[1..]);
      assert forall n :: n in rest ==> exists i :: 0 <= i < |rows| && rows[i].fields.customerName == n by {
        forall n | n in rest ensures exists i :: 0 <= i < |rows| && rows[i].fields.customerName == n {
          var j :| 0 <= j < |rows[1..]| && rows[1..][j].fields.customerName == n;
          assert rows[j + 1].fields.customerName == n;
        }
      }
      {rows[0].fields.customerName} + rest
  }

  /**
   * `df['customer_name'].nunique()`: never more than the orders, and at least
   * one when there is an order.
   */
  function UniqueCustomers(rows: seq<Order>): (n: nat)
    ensures n <= |rows|
    ensures |rows| > 0 ==> n >= 1
  {
    var names := Names(rows);
    assert |rows| > 0 ==> rows[0].fields.customerName in names;
    |names|
  }

  /** What one customer spent: the sum of the totals of the rows carrying that name. */
  function CustomerRevenue(rows: seq<Order>, name: string): int {
    if rows == [] then 0
    else (if rows[0].fields.customerName == name then rows[0].fields.totalAmount else 0) +
         CustomerRevenue(rows[1..], name)
  }

  /** The customer names, each once, in order of first appearance. */
  function DistinctNames(rows: seq<Order>): (names: seq<string>)
    ensures forall i, j :: 0 <= i < j < |names| ==> names[i] != names[j]
    ensures forall n :: n in names <==> n in Names(rows)
  {
    if rows == [] then []
    else
      var rest := DistinctNames(rows[1..]);
      if rows[0].fields.customerName in rest then rest else [rows[0].fields.customerName] + rest
  }

  /** There are as many distinct names as distinct customers. */
  lemma {:induction false} DistinctNamesCount(rows: seq<Order>)
    ensures |DistinctNames(rows)| == UniqueCustomers(rows)
  {
    if rows != [] {
      DistinctNamesCount(rows[1..]);
      var n := rows[0].fields.customerName;
      if n in DistinctNames(rows[1..]) {
        assert forall x :: x in Names(rows) <==> x in Names(rows[1..]);
        assert Names(rows) == Names(rows[1..]);
      } else {
        assert n !in Names(rows[1..]);
      }
    }
  }

  /** Names ordered from the highest revenue down. */
  predicate Descending(names: seq<string>, rows: seq<Order>) {
    forall i, j :: 0 <= i < j < |names| ==> CustomerRevenue(rows, names[i]) >= CustomerRevenue(rows, names[j])
  }

  /** Places `n` before the first name that earned less. */
  function InsertByRevenue(n: string, sorted: seq<string>, rows: seq<Order>): (r: seq<string>)
    ensures multiset(r) == multiset(sorted) + multiset{n}
  {
    if sorted == [] || CustomerRevenue(rows, sorted[0]) < CustomerRevenue(rows, n) then [n] + sorted
    else
      assert sorted == [sorted[0]] + sorted[1..];
      [sorted[0]] + InsertByRevenue(n, sorted[1..], rows)
  }

  /** No name in `names` earned more than `bound`. */
  predicate EarnAtMost(names: seq<string>, rows: seq<Order>, bound: int) {
    forall j :: 0 <= j < |names| ==> CustomerRevenue(rows, names[j]) <= bound
  }

  lemma {:induction false} InsertKeepsBound(n: string, sorted: seq<string>, rows: seq<Order>, bound: int)
    requires EarnAtMost(sorted, rows, bound) && CustomerRevenue(rows, n) <= bound
    ensures EarnAtMost(InsertByRevenue(n, sorted, rows), rows, bound)
  {
    if !(sorted == [] || CustomerRevenue(rows, sorted[0]) < CustomerRevenue(rows, n)) {
      InsertKeepsBound(n, sorted[1..], rows, bound);
    }
  }

  /** A name in front of a descending list that earned no less than any of it keeps the list descending. */
  lemma ConsDescending(x: string, tail: seq<string>, rows: seq<Order>)
    requires Descending(tail, rows) && EarnAtMost(tail, rows, CustomerRevenue(rows, x))
    ensures Descending([x] + tail, rows)
  {
    var r := [x] + tail;
    assert r[0] == x && r[1..] == tail;
    forall i, j | 0 <= i < j < |r|
      ensures CustomerRevenue(rows, r[i]) >= CustomerRevenue(rows, r[j])
    {
      if i == 0 {
        assert EarnAtMost(r[1..], rows, CustomerRevenue(rows, r[0]));
        assert r[j] == r[1..][j - 1];
      } else {
        assert Descending(r[1..], rows);
        assert r[i] == r[1..][i - 1] && r[j] == r[1..][j - 1];
      }
    }
  }

  lemma {:induction false} InsertKeepsDescending(n: string, sorted: seq<string>, rows: seq<Order>)
    requires Descending(sorted, rows)
    ensures Descending(InsertByRevenue(n, sorted, rows), rows)
  {
    if sorted == [] || CustomerRevenue(rows, sorted[0]) < CustomerRevenue(rows, n) {
      ConsDescending(n, sorted, rows);
    } else {
      var head := CustomerRevenue(rows, sorted[0]);
      assert Descending(sorted[1..], rows) && EarnAtMost(sorted[1..], rows, head) by {
        forall i, j | 0 <= i < j < |sorted| - 1
          ensures CustomerRevenue(rows, sorted[1..][i]) >= CustomerRevenue(rows, sorted[1..][j])
        {
          assert sorted[1..][i] == sorted[i + 1] && sorted[1..][j] == sorted[j + 1];
        }
        forall j | 0 <= j < |sorted| - 1 ensures CustomerRevenue(rows, sorted[1..][j]) <= head {
          assert sorted[1..][j] == sorted[j + 1];
        }
      }
      InsertKeepsDescending(n, sorted[1..], rows);
      InsertKeepsBound(n, sorted[1..], rows, head);
      ConsDescending(sorted[0], InsertByRevenue(n, sorted[1..], rows), rows);
    }
  }

  /** `sort_values(ascending=False)` on the per-customer sums, as an insertion sort. */
  function SortByRevenue(names: seq<string>, rows: seq<Order>): (sorted: seq<string>)
    ensures multiset(sorted) == multiset(names)
  {
    if names == [] then []
    else
      assert names == [names[0]] + names[1..];
      InsertByRevenue(names[0], SortByRevenue(names[1..], rows), rows)
  }

  lemma {:induction false} SortIsDescending(names: seq<string>, rows: seq<Order>)
    ensures Descending(SortByRevenue(names, rows), rows)
  {
    if names != [] {
      SortIsDescending(names[1..], rows);
      InsertKeepsDescending(names[0], SortByRevenue(names[1..], rows), rows);
    }
  }

  /** One bar of the top-customers chart. */
  datatype CustomerTotal = CustomerTotal(name: string, revenue: int)

  /** How many bars the chart shows: `.head(10)`. */
  const TopCount: nat := 10

  /** Every customer once, from the highest revenue down. */
  function RankedCustomers(rows: seq<Order>): seq<string> {
    SortByRevenue(DistinctNames(rows), rows)
  }

  /** The ranking lists each customer exactly once, in non-increasing order of revenue. */
  lemma RankingFacts(rows: seq<Order>)
    ensures var ranked := RankedCustomers(rows);
      && |ranked| == UniqueCustomers(rows)
      && Descending(ranked, rows)
      && (forall i, j :: 0 <= i < j < |ranked| ==> ranked[i] != ranked[j])
      && (forall n :: n in ranked <==> n in Names(rows))
  {
    var names := DistinctNames(rows);
    var ranked := RankedCustomers(rows);
    SortIsDescending(names, rows);
    DistinctNamesCount(rows);
    assert |ranked| == |names| by {
      assert |multiset(ranked)| == |multiset(names)|;
    }
    forall n ensures n in ranked <==> n in Names(rows) {
      assert n in ranked <==> n in multiset(ranked);
      assert n in names <==> n in multiset(names);
    }
    SortedDistinct(names, ranked);
  }

  /**
   * `groupby('customer_name')['total_amount'].sum().sort_values(ascending=False).head(10)`:
   * at most ten bars, each with its customer's summed revenue.
   */
  function TopCustomers(rows: seq<Order>): (top: seq<CustomerTotal>)
    ensures |top| <= TopCount
    ensures forall i :: 0 <= i < |top| ==> top[i].revenue == CustomerRevenue(rows, top[i].name)
  {
    var ranked := RankedCustomers(rows);
    var shown := if |ranked| <= TopCount then ranked else ranked[..TopCount];
    seq(|shown|, i requires 0 <= i < |shown| => CustomerTotal(shown[i], CustomerRevenue(rows, shown[i])))
  }

  /** The chart shows the first `min(10, customers)` entries of the ranking, each with its revenue. */
  lemma TopIsRankingPrefix(rows: seq<Order>)
    ensures var top, ranked := TopCustomers(rows), RankedCustomers(rows);
      && |top| == (if |ranked| <= TopCount then |ranked| else TopCount)
      && forall i :: 0 <= i < |top| ==> top[i] == CustomerTotal(ranked[i], CustomerRevenue(rows, ranked[i]))
  {
  }

  /** The chart holds at most ten customers; with ten or fewer customers, all are shown. */
  lemma TopCustomersCount(rows: seq<Order>)
    ensures |TopCustomers(rows)| <= TopCount
    ensures |TopCustomers(rows)| == if UniqueCustomers(rows) <= TopCount then UniqueCustomers(rows) else TopCount
  {
    RankingFacts(rows);
    TopIsRankingPrefix(rows);
  }

  /**
   * Each customer on the chart appears once, with its own revenue, and the
   * chart runs from the highest revenue down.
   */
  lemma TopCustomersRanked(rows: seq<Order>)
    ensures var top := TopCustomers(rows);
      && (forall i :: 0 <= i < |top| ==> top[i].name in Names(rows) && top[i].revenue == CustomerRevenue(rows, top[i].name))
      && (forall i, j :: 0 <= i < j < |top| ==> top[i].name != top[j].name && top[i].revenue >= top[j].revenue)
  {
    var top, ranked := TopCustomers(rows), RankedCustomers(rows);
    var names := Names(rows);
    RankingFacts(rows);
    TopIsRankingPrefix(rows);
    assert |top| <= |ranked|;
    assert forall n :: n in ranked ==> n in names;
    forall i | 0 <= i < |top|
      ensures top[i].name in names
    {
      assert top[i].name == ranked[i];
    }
    forall i, j | 0 <= i < j < |top|
      ensures top[i].name != top[j].name && top[i].revenue >= top[j].revenue
    {
      assert top[i].name == ranked[i] && top[j].name == ranked[j];
      assert CustomerRevenue(rows, ranked[i]) >= CustomerRevenue(rows, ranked[j]);
    }
  }

  /** No customer left off the chart earns more than any customer on it. */
  lemma TopCustomersLeftOutEarnLess(rows: seq<Order>, n: string)
    requires n in Names(rows)
    requires forall j :: 0 <= j < |TopCustomers(rows)| ==> TopCustomers(rows)[j].name != n
    ensures forall i :: 0 <= i < |TopCustomers(rows)| ==> CustomerRevenue(rows, n) <= TopCustomers(rows)[i].revenue
  {
    var ranked := RankedCustomers(rows);
    var top := TopCustomers(rows);
    RankingFacts(rows);
    TopIsRankingPrefix(rows);
    assert n in ranked;
    var k :| 0 <= k < |ranked| && ranked[k] == n;
    // `n` is not among the first `|top|` entries of the ranking, so it comes after all of them
    assert |top| <= k by {
      if k < |top| {
        assert false;
      }
    }
    forall i | 0 <= i < |top| ensures CustomerRevenue(rows, n) <= top[i].revenue {
      assert top[i] == CustomerTotal(ranked[i], CustomerRevenue(rows, ranked[i]));
      assert CustomerRevenue(rows, ranked[i]) >= CustomerRevenue(rows, ranked[k]);
    }
  }

  /** A permutation of a sequence without repeats has none either. */
  lemma SortedDistinct(names: seq<string>, sorted: seq<string>)
    requires forall i, j :: 0 <= i < j < |names| ==> names[i] != names[j]
    requires multiset(sorted) == multiset(names)
    ensures forall i, j :: 0 <= i < j < |sorted| ==> sorted[i] != sorted[j]
  {
    forall i, j | 0 <= i < j < |sorted|
      ensures sorted[i] != sorted[j]
    {
      if sorted[i] == sorted[j] {
        var x := sorted[i];
        assert multiset(sorted)[x] >= 2 by {
          assert sorted == sorted[..i] + [x] + sorted[i + 1..j] + [x] + sorted[j + 1..];
        }
        DistinctOnce(names, x);
        assert false;
      }
    }
  }

  lemma {:induction false} DistinctOnce(s: seq<string>, x: string)
    requires forall i, j :: 0 <= i < j < |s| ==> s[i] != s[j]
    ensures multiset(s)[x] <= 1
  {
    if s != [] {
      DistinctOnce(s[1..], x);
      assert s == [s[0]] + s[1..];
      if s[0] == x {
        assert x !in s[1..] by {
          forall k | 0 <= k < |s[1..]| ensures s[1..][k] != x {
            assert s[1..][k] == s[k + 1];
          }
        }
      }
    }
  }

  // ---------------------------------------------------------------- revenue per day

  /** What the orders of one date brought in. */
  function RevenueOn(rows: seq<Order>, date: string): int {
    if rows == [] then 0
    else (if rows[0].fields.orderDate == date then rows[0].fields.totalAmount else 0) + RevenueOn(rows[1..], date)
  }

  /** `df.groupby('order_date')['total_amount'].sum()`, keyed by the stored `YYYY-MM-DD` text. */
  function DailyRevenue(rows: seq<Order>): (daily: map<string, int>)
    ensures forall i :: 0 <= i < |rows| ==> rows[i].fields.orderDate in daily
  {
    if rows == [] then map[]
    else
      var rest := DailyRevenue(rows[1..]);
      var date := rows[0].fields.orderDate;
      rest[date := rows[0].fields.totalAmount + (if date in rest then rest[date] else 0)]
  }

  /**
   * Every date with an order has a point in the daily chart, and its value is
   * exactly what that date's orders brought in; dates without orders have none.
   */
  lemma {:induction false} DailyRevenueIsPerDaySum(rows: seq<Order>, date: string)
    ensures date in DailyRevenue(rows) <==> exists i :: 0 <= i < |rows| && rows[i].fields.orderDate == date
    ensures date in DailyRevenue(rows) ==> DailyRevenue(rows)[date] == RevenueOn(rows, date)
    ensures date !in DailyRevenue(rows) ==> RevenueOn(rows, date) == 0
  {
    if rows != [] {
      DailyRevenueIsPerDaySum(rows[1..], date);
      if exists i :: 0 <= i < |rows[1..]| && rows[1..][i].fields.orderDate == date {
        var i :| 0 <= i < |rows[1..]| && rows[1..][i].fields.orderDate == date;
        assert rows[i + 1].fields.orderDate == date;
      }
      if exists i :: 0 <= i < |rows| && rows[i].fields.orderDate == date {
        var i :| 0 <= i < |rows| && rows[i].fields.orderDate == date;
        if i > 0 {
          assert rows[1..][i - 1].fields.orderDate == date;
        }
      }
    }
  }

  /** Summed over the days, the daily revenues give the total revenue. */
  lemma {:induction false} RevenueSplitsByDay(rows: seq<Order>, date: string)
    ensures TotalRevenue(rows) == RevenueOn(rows, date) + TotalRevenue(Others(rows, date))
  {
    if rows != [] {
      RevenueSplitsByDay(rows[1..], date);
    }
  }

  /** The orders not placed on `date`. */
  function Others(rows: seq<Order>, date: string): (r: seq<Order>)
    ensures |r| <= |rows|
  {
    if rows == [] then []
    else if rows[0].fields.orderDate == date then Others(rows[1..], date)
    else [rows[0]] + Others(rows[1..], date)
  }
}
