/**
 * The desktop front end: one `ExpressWashApp` object holding the order form,
 * the bill summary, the search box and the order tree, over the shared
 * `orders` table. Saving generates a receipt number and inserts a row;
 * editing and deleting act on the row selected in the tree; the search box
 * detaches tree items whose customer name does not match.
 */
module DesktopApp {
  import opened Wrappers
  import opened Text
  import opened Dates
  import opened Pricing
  import opened Orders
  import opened Receipts

  // ---------------------------------------------------------------- bill summary

  datatype Service = RegularClothes | BlanketsAndBedsheets | WhiteClothes

  /** One line of the bill summary text: the title, a service line, a rule, the total. */
  datatype BillLine =
    | BillTitle
    | ServiceLine(service: Service, quantity: int, cost: int)
    | Rule
    | TotalLine(amount: int)

  function Quantity(s: Service, regularKg: int, blanketsKg: int, whitePieces: int): int {
    match s
    case RegularClothes => regularKg
    case BlanketsAndBedsheets => blanketsKg
    case WhiteClothes => whitePieces
  }

  function Cost(s: Service, b: Bill): int {
    match s
    case RegularClothes => b.regularCost
    case BlanketsAndBedsheets => b.blanketsCost
    case WhiteClothes => b.whiteCost
  }

  /** Where a service's line stands in the summary: regular clothes, then blankets, then white clothes. */
  function Rank(s: Service): nat {
    match s
    case RegularClothes => 0
    case BlanketsAndBedsheets => 1
    case WhiteClothes => 2
  }

  predicate ShowsService(lines: seq<BillLine>, s: Service) {
    exists i :: 0 <= i < |lines| && lines[i].ServiceLine? && lines[i].service == s
  }

  /**
   * The layout of the bill summary: the title, then only service lines, one
   * for each service whose quantity is positive and in the order regular,
   * blankets, white, each with its quantity and its cost, then the total
   * between two rules.
   */
  predicate IsBillSummary(lines: seq<BillLine>, regularKg: int, blanketsKg: int, whitePieces: int) {
    var bill := CalculateBill(regularKg, blanketsKg, whitePieces);
    && |lines| >= 4 && lines[0] == BillTitle
    && lines[|lines| - 3..] == [Rule, TotalLine(bill.total), Rule]
    && (forall i :: 1 <= i < |lines| - 3 ==> lines[i].ServiceLine?)
    && (forall i, j :: 1 <= i < j < |lines| - 3 && lines[i].ServiceLine? && lines[j].ServiceLine? ==>
          Rank(lines[i].service) < Rank(lines[j].service))
    && (forall s :: ShowsService(lines, s) <==> Quantity(s, regularKg, blanketsKg, whitePieces) > 0)
    && (forall i :: 0 <= i < |lines| && lines[i].ServiceLine? ==>
          lines[i].quantity == Quantity(lines[i].service, regularKg, blanketsKg, whitePieces) &&
          lines[i].cost == Cost(lines[i].service, bill))
  }

  /**
   * The lines so far: the title, then correct service lines in rank order,
   * one for each service already seen with a positive quantity.
   */
  predicate ServicesSoFar(lines: seq<BillLine>, regularKg: int, blanketsKg: int, whitePieces: int, seen: set<Service>) {
    var bill := CalculateBill(regularKg, blanketsKg, whitePieces);
    && |lines| >= 1 && lines[0] == BillTitle
    && (forall i :: 1 <= i < |lines| ==>
          && lines[i].ServiceLine?
          && lines[i].quantity == Quantity(lines[i].service, regularKg, blanketsKg, whitePieces)
          && lines[i].cost == Cost(lines[i].service, bill))
    && (forall i, j :: 1 <= i < j < |lines| && lines[i].ServiceLine? && lines[j].ServiceLine? ==>
          Rank(lines[i].service) < Rank(lines[j].service))
    && (forall s :: ShowsService(lines, s) <==> s in seen && Quantity(s, regularKg, blanketsKg, whitePieces) > 0)
  }

  /**
   * Considering one more service, ranked after every service seen so far:
   * its line is appended exactly when its quantity is positive.
   */
  lemma ConsiderService(lines: seq<BillLine>, regularKg: int, blanketsKg: int, whitePieces: int, seen: set<Service>, s: Service)
    requires ServicesSoFar(lines, regularKg, blanketsKg, whitePieces, seen)
    requires forall t :: t in seen ==> Rank(t) < Rank(s)
    ensures var q := Quantity(s, regularKg, blanketsKg, whitePieces);
            var next := if q > 0 then lines + [ServiceLine(s, q, Cost(s, CalculateBill(regularKg, blanketsKg, whitePieces)))] else lines;
            ServicesSoFar(next, regularKg, blanketsKg, whitePieces, seen + {s})
  {
    var q := Quantity(s, regularKg, blanketsKg, whitePieces);
    if q > 0 {
      var next := lines + [ServiceLine(s, q, Cost(s, CalculateBill(regularKg, blanketsKg, whitePieces)))];
      assert next[|lines|].service == s;
      forall i, j | 1 <= i < j < |next| && next[i].ServiceLine? && next[j].ServiceLine?
        ensures Rank(next[i].service) < Rank(next[j].service)
      {
        assert next[i] == lines[i];
        if j == |lines| {
          assert ShowsService(lines, lines[i].service);
        } else {
          assert next[j] == lines[j];
        }
      }
      forall t ensures ShowsService(next, t) <==> t in seen + {s} && Quantity(t, regularKg, blanketsKg, whitePieces) > 0 {
        if ShowsService(next, t) && t != s {
          var i :| 0 <= i < |next| && next[i].ServiceLine? && next[i].service == t;
          assert lines[i] == next[i];
        }
        if ShowsService(lines, t) {
          var i :| 0 <= i < |lines| && lines[i].ServiceLine? && lines[i].service == t;
          assert next[i] == lines[i];
        }
      }
    }
  }

  /** Closing the summary with the total between two rules, once all three services were considered. */
  lemma CloseSummary(lines: seq<BillLine>, regularKg: int, blanketsKg: int, whitePieces: int)
    requires ServicesSoFar(lines, regularKg, blanketsKg, whitePieces, {RegularClothes, BlanketsAndBedsheets, WhiteClothes})
    ensures IsBillSummary(lines + [Rule, TotalLine(CalculateBill(regularKg, blanketsKg, whitePieces).total), Rule],
                          regularKg, blanketsKg, whitePieces)
  {
    var bill := CalculateBill(regularKg, blanketsKg, whitePieces);
    var all := lines + [Rule, TotalLine(bill.total), Rule];
    assert all[|all| - 3..] == [Rule, TotalLine(bill.total), Rule];
    assert forall i :: 0 <= i < |lines| ==> all[i] == lines[i];
    forall s ensures ShowsService(all, s) <==> ShowsService(lines, s) {
      if ShowsService(all, s) {
        var i :| 0 <= i < |all| && all[i].ServiceLine? && all[i].service == s;
        assert lines[i] == all[i];
      }
      if ShowsService(lines, s) {
        var i :| 0 <= i < |lines| && lines[i].ServiceLine? && lines[i].service == s;
        assert all[i] == lines[i];
      }
    }
  }

  /** `if quantity > 0: lines.append(...)`: one service's line goes in exactly when its quantity is positive. */
  method AppendService(lines: seq<BillLine>, s: Service, quantity: int, cost: int,
                       ghost regularKg: int, ghost blanketsKg: int, ghost whitePieces: int, ghost seen: set<Service>)
      returns (next: seq<BillLine>)
    requires ServicesSoFar(lines, regularKg, blanketsKg, whitePieces, seen)
    requires forall t :: t in seen ==> Rank(t) < Rank(s)
    requires quantity == Quantity(s, regularKg, blanketsKg, whitePieces)
    requires cost == Cost(s, CalculateBill(regularKg, blanketsKg, whitePieces))
    ensures next == if quantity > 0 then lines + [ServiceLine(s, quantity, cost)] else lines
    ensures ServicesSoFar(next, regularKg, blanketsKg, whitePieces, seen + {s})
  {
    ConsiderService(lines, regularKg, blanketsKg, whitePieces, seen, s);
    next := lines;
    if quantity > 0 {
      next := next + [ServiceLine(s, quantity, cost)];
    }
  }

  /** Services in strictly increasing rank. */
  predicate RankOrdered(ss: seq<Service>) {
    forall i, j :: 0 <= i < j < |ss| ==> Rank(ss[i]) < Rank(ss[j])
  }

  /** Two rank-ordered lists of the same services are the same list. */
  lemma {:induction false} RankOrderedUnique(a: seq<Service>, b: seq<Service>)
    requires RankOrdered(a) && RankOrdered(b)
    requires forall s :: s in a <==> s in b
    ensures a == b
    decreases |a|
  {
    assert a == [] <==> b == [] by {
      if a != [] { assert a[0] in b; }
      if b != [] { assert b[0] in a; }
    }
    if a != [] {
      assert a[0] in a && b[0] in b;
      // each head is the other list's element of least rank
      var k :| 0 <= k < |b| && b[k] == a[0];
      var m :| 0 <= m < |a| && a[m] == b[0];
      assert a[0] == b[0];
      forall s ensures s in a[1..] <==> s in b[1..] {
        if s in a[1..] {
          var i :| 0 <= i < |a[1..]| && a[1..][i] == s;
          assert Rank(a[0]) < Rank(s);
          assert s in b;
          var j :| 0 <= j < |b| && b[j] == s;
          assert j != 0;
          assert b[1..][j - 1] == s;
        }
        if s in b[1..] {
          var i :| 0 <= i < |b[1..]| && b[1..][i] == s;
          assert Rank(b[0]) < Rank(s);
          assert s in a;
          var j :| 0 <= j < |a| && a[j] == s;
          assert j != 0;
          assert a[1..][j - 1] == s;
        }
      }
      RankOrderedUnique(a[1..], b[1..]);
      assert a == [a[0]] + a[1..] && b == [b[0]] + b[1..];
    }
  }

  /** The services of a run of service lines, in order. */
  function ServicesOf(lines: seq<BillLine>): (ss: seq<Service>)
    requires forall i :: 0 <= i < |lines| ==> lines[i].ServiceLine?
    ensures |ss| == |lines| && forall i :: 0 <= i < |lines| ==> ss[i] == lines[i].service
  {
    seq(|lines|, i requires 0 <= i < |lines| => lines[i].service)
  }

  /** The service lines of a bill summary, as a run of lines, and the services they show. */
  lemma SummaryMiddle(lines: seq<BillLine>, regularKg: int, blanketsKg: int, whitePieces: int)
    requires IsBillSummary(lines, regularKg, blanketsKg, whitePieces)
    ensures var mid := lines[1..|lines| - 3];
            && (forall i :: 0 <= i < |mid| ==> mid[i].ServiceLine?)
            && RankOrdered(ServicesOf(mid))
            && (forall s :: s in ServicesOf(mid) <==> Quantity(s, regularKg, blanketsKg, whitePieces) > 0)
  {
    var mid := lines[1..|lines| - 3];
    assert forall i :: 0 <= i < |mid| ==> mid[i] == lines[i + 1];
    var ss := ServicesOf(mid);
    forall s ensures s in ss <==> ShowsService(lines, s) {
      if s in ss {
        var i :| 0 <= i < |ss| && ss[i] == s;
        assert lines[i + 1].ServiceLine? && lines[i + 1].service == s;
      }
      if ShowsService(lines, s) {
        var i :| 0 <= i < |lines| && lines[i].ServiceLine? && lines[i].service == s;
        assert lines[|lines| - 3..][0] == Rule && lines[|lines| - 3..][1].TotalLine? && lines[|lines| - 3..][2] == Rule;
        assert 1 <= i < |lines| - 3;
        assert ss[i - 1] == s;
      }
    }
  }

  /**
   * The summary is fully determined by the three quantities: any two line
   * lists that are both bill summaries for them are the same list.
   */
  lemma BillSummaryDetermined(a: seq<BillLine>, b: seq<BillLine>, regularKg: int, blanketsKg: int, whitePieces: int)
    requires IsBillSummary(a, regularKg, blanketsKg, whitePieces)
    requires IsBillSummary(b, regularKg, blanketsKg, whitePieces)
    ensures a == b
  {
    SummaryMiddle(a, regularKg, blanketsKg, whitePieces);
    SummaryMiddle(b, regularKg, blanketsKg, whitePieces);
    var ma, mb := a[1..|a| - 3], b[1..|b| - 3];
    RankOrderedUnique(ServicesOf(ma), ServicesOf(mb));
    assert |ma| == |mb|;
    forall i | 0 <= i < |ma| ensures ma[i] == mb[i] {
      assert ma[i] == a[i + 1] && mb[i] == b[i + 1];
      assert ma[i].service == mb[i].service;
    }
    assert ma == mb;
    assert a == [a[0]] + ma + a[|a| - 3..];
    assert b == [b[0]] + mb + b[|b| - 3..];
  }

  /**
   * The lines `calculate_bill` joins into the summary, built by appending.
   * The total counts every service, shown or not.
   */
  method BillLines(regularKg: int, blanketsKg: int, whitePieces: int) returns (lines: seq<BillLine>)
    ensures IsBillSummary(lines, regularKg, blanketsKg, whitePieces)
  {
    var regularCost := regularKg * RegularRate;
    var blanketsCost := blanketsKg * BlanketsRate;
    var whiteCost := whitePieces * 100 * WhiteRate;
    var total := regularCost + blanketsCost + whiteCost;
    lines := [BillTitle];
    lines := AppendService(lines, RegularClothes, regularKg, regularCost, regularKg, blanketsKg, whitePieces, {});
    lines := AppendService(lines, BlanketsAndBedsheets, blanketsKg, blanketsCost,
                           regularKg, blanketsKg, whitePieces, {RegularClothes});
    lines := AppendService(lines, WhiteClothes, whitePieces, whiteCost,
                           regularKg, blanketsKg, whitePieces, {RegularClothes, BlanketsAndBedsheets});
    assert {RegularClothes, BlanketsAndBedsheets} + {WhiteClothes} == {RegularClothes, BlanketsAndBedsheets, WhiteClothes};
    assert total == CalculateBill(regularKg, blanketsKg, whitePieces).total;
    CloseSummary(lines, regularKg, blanketsKg, whitePieces);
    ghost var closed := lines + [Rule, TotalLine(CalculateBill(regularKg, blanketsKg, whitePieces).total), Rule];
    lines := lines + [Rule, TotalLine(total), Rule];
    assert lines == closed;
  }

  // ---------------------------------------------------------------- tree items

  /**
   * The values of one tree row: the receipt cell, the customer name, mobile,
   * order date, the three quantities, the total and the creation time.
   * `rowId` is the primary key the item was loaded from; the tree keeps it
   * with the item (as its item id) but the as-written edit and delete paths
   * never read it.
   */
  datatype TreeItem = TreeItem(
    rowId: int,
    receiptCell: string,
    nameCell: string,
    mobileCell: string,
    dateCell: string,
    regularKg: int,
    blanketsKg: int,
    whitePieces: int,
    totalAmount: int,
    createdAt: int)

  /** A NULL receipt number reaches the tree as Python's `None`, which Tk shows as the text "None". */
  function ReceiptCell(receipt: Option<string>): string {
    match receipt
    case None => "None"
    case Some(r) => r
  }

  function ItemOf(o: Order): TreeItem {
    TreeItem(o.id, ReceiptCell(o.receipt), o.fields.customerName, o.fields.mobileNumber, o.fields.orderDate,
             o.fields.regularKg, o.fields.blanketsKg, o.fields.whitePieces, o.fields.totalAmount, o.createdAt)
  }

  function ItemsOf(list: seq<Order>): (items: seq<TreeItem>)
    ensures |items| == |list|
    ensures forall i :: 0 <= i < |list| ==> items[i] == ItemOf(list[i])
  {
    seq(|list|, i requires 0 <= i < |list| => ItemOf(list[i]))
  }

  /** `search_term in values[1].lower()`, with the search term already lowered. */
  predicate Matches(item: TreeItem, term: string) {
    Contains(Lower(item.nameCell), term)
  }

  /**
   * The items of `items` whose name matches `term`, in their order: exactly
   * the matching items, and never more items than it was given.
   */
  function Keep(items: seq<TreeItem>, term: string): (r: seq<TreeItem>)
    ensures |r| <= |items|
    ensures forall x :: x in r <==> x in items && Matches(x, term)
    decreases |items|
  {
    if items == [] then []
    else
      var init, last := items[..|items| - 1], items[|items| - 1];
      assert items == init + [last];
      Keep(init, term) + (if Matches(last, term) then [last] else [])
  }

  /** An empty search term matches every name, so the filter keeps everything. */
  lemma {:induction false} KeepEmptyTerm(items: seq<TreeItem>)
    ensures Keep(items, "") == items
    decreases |items|
  {
    if items != [] {
      KeepEmptyTerm(items[..|items| - 1]);
      ContainsEmpty(Lower(items[|items| - 1].nameCell));
      assert items[..|items| - 1] + [items[|items| - 1]] == items;
    }
  }

  /** Filtering a second time with the same term changes nothing. */
  lemma {:induction false} KeepIdempotent(items: seq<TreeItem>, term: string)
    ensures Keep(Keep(items, term), term) == Keep(items, term)
    decreases |items|
  {
    if items != [] {
      var init, last := items[..|items| - 1], items[|items| - 1];
      KeepIdempotent(init, term);
      KeepAppend(Keep(init, term), if Matches(last, term) then [last] else [], term);
    }
  }

  lemma {:induction false} KeepAppend(a: seq<TreeItem>, b: seq<TreeItem>, term: string)
    ensures Keep(a + b, term) == Keep(a, term) + Keep(b, term)
    decreases |b|
  {
    if b == [] {
      assert a + b == a;
    } else {
      var init, last := b[..|b| - 1], b[|b| - 1];
      var tail := if Matches(last, term) then [last] else [];
      assert (a + b)[..|a + b| - 1] == a + init && (a + b)[|a + b| - 1] == last;
      assert Keep(a + b, term) == Keep(a + init, term) + tail;
      KeepAppend(a, init, term);
      assert Keep(b, term) == Keep(init, term) + tail;
    }
  }

  /** "b" occurs in "Bob" once lowered, and not in "Ann". */
  lemma SearchForB()
    ensures Contains(Lower("Bob"), "b") && !Contains(Lower("Ann"), "b")
  {
    assert Lower("Bob") == "bob" && IsPrefix("b", "bob");
    assert Lower("Ann") == "ann";
    assert !Contains("ann", "b") by {
      assert "ann"[..1] == "a" && "ann"[1..] == "nn";
      assert "nn"[..1] == "n" && "nn"[1..] == "n";
      assert "n"[..1] == "n" && "n"[1..] == "";
    }
  }

  // ---------------------------------------------------------------- the name cell as the filter reads it

  /**
   * A cell as `tree.item(item)['values']` hands it back: ttk turns every
   * cell whose text `int()` accepts into a Python `int` and leaves the rest
   * as `str`.
   */
  datatype CellValue = IntCell(n: int) | TextCell(text: string)

  /** A cell of digits comes back as the number they spell; any other text comes back unchanged. */
  function CellValueOf(cell: string): (v: CellValue)
    ensures v.IntCell? <==> cell != [] && AllDigits(cell)
    ensures v.IntCell? ==> v.n >= 0 && v.n == DecimalValue(cell)
    ensures v.TextCell? ==> v.text == cell
  {
    match ParseInt(cell)
    case Some(n) => IntCell(n)
    case None => TextCell(cell)
  }

  /** `values[1].lower()` raises `AttributeError`: the name came back as a non-zero `int`. */
  predicate NameRaises(item: TreeItem) {
    var v := CellValueOf(item.nameCell);
    v.IntCell? && v.n != 0
  }

  /**
   * `values[1].lower() if values[1] else ""` where it does not raise: the
   * `int` 0 is falsy and gives "", text is lowered.
   */
  function NameText(item: TreeItem): string {
    match CellValueOf(item.nameCell)
    case IntCell(_) => ""
    case TextCell(t) => Lower(t)
  }

  /** `search_term in customer_name` as written. */
  predicate MatchesAsWritten(item: TreeItem, term: string) {
    Contains(NameText(item), term)
  }

  /** The items the as-written loop keeps, in their order, before it meets a raising name. */
  function KeepAsWritten(items: seq<TreeItem>, term: string): (r: seq<TreeItem>)
    ensures |r| <= |items|
    ensures forall x :: x in r <==> x in items && MatchesAsWritten(x, term)
    decreases |items|
  {
    if items == [] then []
    else
      var init, last := items[..|items| - 1], items[|items| - 1];
      assert items == init + [last];
      KeepAsWritten(init, term) + (if MatchesAsWritten(last, term) then [last] else [])
  }

  /** Visiting one more item adds it at the end of what is kept when it matches. */
  lemma KeepAsWrittenStep(items: seq<TreeItem>, i: int, term: string)
    requires 0 <= i < |items|
    ensures KeepAsWritten(items[..i + 1], term)
            == KeepAsWritten(items[..i], term) + (if MatchesAsWritten(items[i], term) then [items[i]] else [])
  {
    assert items[..i + 1][..i] == items[..i];
  }

  /** Moving the front item to the end, or dropping it, in a line of items. */
  lemma Rotate(x: TreeItem, rest: seq<TreeItem>, kept: seq<TreeItem>, keep: bool)
    ensures var visible := [x] + rest + kept;
            (if keep then visible[1..] + [visible[0]] else visible[1..]) == rest + (kept + (if keep then [x] else []))
  {
    var visible := [x] + rest + kept;
    assert visible[0] == x && visible[1..] == rest + kept;
  }

  /**
   * One step of the as-written walk over `items`: the visited item is the
   * first attached one, and reattaching it moves it to the end while
   * detaching drops it.
   */
  lemma SearchStep(items: seq<TreeItem>, i: int, term: string, visible: seq<TreeItem>)
    requires 0 <= i < |items|
    requires visible == items[i..] + KeepAsWritten(items[..i], term)
    ensures visible != [] && visible[0] == items[i]
    ensures (if MatchesAsWritten(items[i], term) then visible[1..] + [visible[0]] else visible[1..])
            == items[i + 1..] + KeepAsWritten(items[..i + 1], term)
  {
    var x, rest, kept := items[i], items[i + 1..], KeepAsWritten(items[..i], term);
    var m := MatchesAsWritten(x, term);
    assert items[i..] == [x] + rest;
    assert visible == [x] + rest + kept;
    Rotate(x, rest, kept, m);
    KeepAsWrittenStep(items, i, term);
  }

  /** How far the as-written loop gets: the index of the first name that raises, or the length. */
  function CrashPoint(items: seq<TreeItem>): (k: nat)
    ensures k <= |items|
    ensures forall j :: 0 <= j < k ==> !NameRaises(items[j])
    ensures k < |items| ==> NameRaises(items[k])
  {
    if items == [] || NameRaises(items[0]) then 0 else 1 + CrashPoint(items[1..])
  }

  /** An item whose name does not raise, at or before the crash point, lies before it. */
  lemma CrashPointPast(items: seq<TreeItem>, i: nat)
    requires i <= CrashPoint(items) && i < |items| && !NameRaises(items[i])
    ensures i + 1 <= CrashPoint(items)
  {
  }

  /**
   * While no name is a run of digits, the as-written loop runs to the end and
   * keeps what the intended filter keeps.
   */
  lemma {:induction false} KeepAsWrittenAgrees(items: seq<TreeItem>, term: string)
    requires forall i :: 0 <= i < |items| ==> !AllDigits(items[i].nameCell) || items[i].nameCell == []
    ensures CrashPoint(items) == |items|
    ensures KeepAsWritten(items, term) == Keep(items, term)
    decreases |items|
  {
    if items != [] {
      var init, last := items[..|items| - 1], items[|items| - 1];
      KeepAsWrittenAgrees(init, term);
      assert MatchesAsWritten(last, term) == Matches(last, term);
    }
  }

  /** A name spelled with letters only never comes back as an `int`. */
  lemma LettersAreText(item: TreeItem)
    requires |item.nameCell| > 0 && !IsDigit(item.nameCell[0])
    ensures CellValueOf(item.nameCell) == TextCell(item.nameCell)
    ensures NameText(item) == Lower(item.nameCell)
  {
  }

  /**
   * With the as-written filter, a narrower search followed by a wider one
   * shows only what both searches keep: a row hidden by the first search
   * stays hidden, even when the second search is empty.
   */
  lemma SearchCannotWiden(ann: TreeItem, bob: TreeItem)
    requires ann.nameCell == "Ann" && bob.nameCell == "Bob"
    ensures KeepAsWritten(KeepAsWritten([bob, ann], "b"), "") == [bob]
    ensures Keep([bob, ann], "") == [bob, ann]
  {
    SearchForB();
    LettersAreText(ann);
    LettersAreText(bob);
    KeepAsWrittenAgrees([bob, ann], "b");
    KeepAsWrittenAgrees([bob], "");
    assert [bob, ann][..1] == [bob];
    assert Keep([bob], "b") == [bob];
    KeepEmptyTerm([bob]);
    KeepEmptyTerm([bob, ann]);
  }

  /** The name "123" comes back as the number 123, and as text it does not contain "b". */
  lemma NumberName(num: TreeItem)
    requires num.nameCell == "123"
    ensures NameRaises(num) && !Matches(num, "b")
  {
    assert AllDigits("123");
    assert "123"[..2] == "12" && "12"[..1] == "1" && "1"[..0] == "";
    assert DecimalValue("123") == 123;
    assert Lower("123") == "123";
    assert !Contains("123", "b") by {
      assert "123"[..1] == "1" && "123"[1..] == "23";
      assert "23"[..1] == "2" && "23"[1..] == "3";
      assert "3"[..1] == "3" && "3"[1..] == "";
    }
  }

  /**
   * A customer named "123" between "Bob" and "Ann", searched for "b": the
   * as-written loop keeps Bob, then raises on "123" and leaves the rest where
   * they were, so all three stay shown with Bob moved last; the intended
   * filter shows Bob alone.
   */
  lemma NumericNameStopsSearch(bob: TreeItem, num: TreeItem, ann: TreeItem)
    requires bob.nameCell == "Bob" && num.nameCell == "123" && ann.nameCell == "Ann"
    ensures CrashPoint([bob, num, ann]) == 1
    ensures [bob, num, ann][1..] + KeepAsWritten([bob, num, ann][..1], "b") == [num, ann, bob]
    ensures Keep([bob, num, ann], "b") == [bob]
  {
    SearchForB();
    LettersAreText(ann);
    LettersAreText(bob);
    NumberName(num);
    KeepAsWrittenAgrees([bob], "b");
    var all := [bob, num, ann];
    assert all[..1] == [bob] && all[1..] == [num, ann];
    assert Keep([bob], "b") == [bob];
    assert [bob, num][..1] == [bob];
    assert Keep([bob, num], "b") == [bob];
    assert all[..2] == [bob, num];
  }

  // ---------------------------------------------------------------- the id the delete and edit paths send

  /**
   * The integer MySQL compares an INT column with when it is given text: the
   * number the leading digits spell, 0 when there are none.
   */
  function MySqlInt(cell: string): (n: nat)
    ensures LeadingDigits(cell) == [] ==> n == 0
    ensures cell != [] && AllDigits(cell) ==> n == DecimalValue(cell)
  {
    if AllDigits(cell) then LeadingDigitsOfDigits(cell); DecimalValue(LeadingDigits(cell))
    else DecimalValue(LeadingDigits(cell))
  }

  /**
   * Neither a generated receipt number nor the "None" cell starts with a digit,
   * so the id the as-written paths send is 0, which no row has.
   */
  lemma ReceiptCellsCoerceToZero(today: Date, last: Option<string>)
    requires ValidDate(today)
    ensures LeadingDigits(ReceiptCell(None)) == [] && MySqlInt(ReceiptCell(None)) == 0
    ensures GenerateReceiptNumber(today, last).Some? ==>
              var cell := ReceiptCell(GenerateReceiptNumber(today, last));
              LeadingDigits(cell) == [] && MySqlInt(cell) == 0
  {
    var g := GenerateReceiptNumber(today, last);
    if g.Some? {
      var p := Prefix(today);
      assert p[0] == 'R';
      assert g.value[0] == p[0];
    }
  }

  // ---------------------------------------------------------------- the application

  /**
   * The record `save_order` writes from the form: the stripped name, mobile
   * and date with the three quantities and the inline total, or None when
   * the stripped name or date is empty.
   */
  function FormRecord(name: string, mobile: string, date: string,
                      regularKg: int, blanketsKg: int, whitePieces: int): (d: Option<OrderData>)
    ensures d.None? <==> Strip(name) == "" || Strip(date) == ""
    ensures d.Some? ==> d.value.customerName == Strip(name) && d.value.mobileNumber == Strip(mobile)
                        && d.value.orderDate == Strip(date)
    ensures d.Some? ==> d.value.regularKg == regularKg && d.value.blanketsKg == blanketsKg
                        && d.value.whitePieces == whitePieces
    ensures d.Some? ==> d.value.totalAmount == DesktopTotal(regularKg, blanketsKg, whitePieces)
  {
    var n, m, t := Strip(name), Strip(mobile), Strip(date);
    if n == "" || t == "" then None
    else Some(OrderData(n, m, t, regularKg, blanketsKg, whitePieces, DesktopTotal(regularKg, blanketsKg, whitePieces)))
  }

  datatype SaveResult = MissingFields | ReceiptUnreadable | InsertFailed | SavedOrder(id: int, receipt: string)

  /**
   * A save went through: the row with `data` was added under the id the
   * counter held, and no other row changed. Its receipt number carries
   * today's prefix and is exactly the one generated from the latest receipt
   * with that prefix before the save.
   */
  ghost predicate InsertedUnder(before: map<int, Order>, nextId: int, after: map<int, Order>,
                                today: Date, data: OrderData, now: int, out: SaveResult)
    requires ValidDate(today) && out.SavedOrder?
  {
    && out.id == nextId && nextId !in before
    && after == before[out.id := Order(out.id, Some(out.receipt), data, now)]
    && IsPrefix(Prefix(today), out.receipt)
    && exists last :: IsLatestWithPrefix(before, Prefix(today), last) && GenerateReceiptNumber(today, last) == Some(out.receipt)
  }

  /** How far a save attempt moves the AUTO_INCREMENT counter: one for each INSERT sent. */
  function CounterStep(out: SaveResult): nat {
    if out.MissingFields? || out.ReceiptUnreadable? then 0 else 1
  }

  /**
   * After a save the receipts are still in order, and the new number lies
   * above the number of every receipt of the same day that was there before.
   */
  ghost predicate ReceiptNumberAbove(before: map<int, Order>, after: map<int, Order>, today: Date, out: SaveResult)
    requires ValidDate(today) && out.SavedOrder?
  {
    && ReceiptsOrdered(after)
    && out.id in after && after[out.id].receipt == Some(out.receipt)
    && SequenceOf(out.receipt).Some?
    && (forall j :: j in before && HasReceiptPrefix(before[j], Prefix(today)) && SequenceOf(before[j].receipt.value).Some? ==>
          SeqNo(before[j]) < SequenceOf(out.receipt).value)
  }
  /**
   * Receipt numbers of one day have no gaps: while receipts are in order, a
   * save numbers its receipt 1 when the day has none yet, and otherwise one
   * more than the day's highest number.
   */
  lemma SavedReceiptIsNextInDay(before: map<int, Order>, nextId: int, after: map<int, Order>,
                                today: Date, data: OrderData, now: int, out: SaveResult)
    requires ValidDate(today) && out.SavedOrder? && ReceiptsOrdered(before)
    requires InsertedUnder(before, nextId, after, today, data, now, out)
    ensures (forall k :: k in before ==> !HasReceiptPrefix(before[k], Prefix(today))) ==> SequenceOf(out.receipt) == Some(1)
    ensures (exists k :: k in before && HasReceiptPrefix(before[k], Prefix(today))) ==>
              exists m :: m in before && HasReceiptPrefix(before[m], Prefix(today))
                && SequenceOf(out.receipt) == Some(SeqNo(before[m]) + 1)
                && forall j :: j in before && HasReceiptPrefix(before[j], Prefix(today)) ==> SeqNo(before[j]) <= SeqNo(before[m])
  {
    var P := Prefix(today);
    var last :| IsLatestWithPrefix(before, P, last) && GenerateReceiptNumber(today, last) == Some(out.receipt);
    assert SequenceOf(out.receipt) == NextSequence(last);
    if forall k :: k in before ==> !HasReceiptPrefix(before[k], P) {
      GeneratedFirstOfDay(before, today, last);
    } else {
      assert last.Some?;
      var m :| m in before && HasReceiptPrefix(before[m], P) && before[m].receipt == last &&
               forall j :: j in before && HasReceiptPrefix(before[j], P) ==> j <= m;
      GeneratedNextInDay(before, today, last, m);
    }
  }

  /**
   * While receipts are in order, the generated receipt is free, and the row
   * inserted under it keeps the receipts in order above the day's numbers.
   */
  lemma OrderedSaveGoesThrough(before: map<int, Order>, counter: int, today: Date, last: Option<string>,
                               receipt: Option<string>, data: OrderData, now: int)
    requires ValidDate(today) && ReceiptsOrdered(before) && IsLatestWithPrefix(before, Prefix(today), last)
    requires forall k :: k in before ==> k < counter
    requires receipt == GenerateReceiptNumber(today, last)
    ensures receipt.Some? && !ReceiptTaken(before, receipt.value)
    ensures ReceiptNumberAbove(before, before[counter := Order(counter, receipt, data, now)], today,
                               SavedOrder(counter, receipt.value))
  {
    GeneratedReceiptIsFresh(before, today, last, Order(counter, receipt, data, now));
    GeneratedAboveDay(before, today, last);
  }

  datatype EditResult = NothingSelected | UpdateSent
  datatype DeleteResult = NoRowSelected | DeleteCancelled | DeleteSent

  class ExpressWashApp {
    /** The shared `orders` table. */
    const db: OrdersTable

    /** The order form: `customer_name_var`, `mobile_var`, `order_date_var` and the three quantity variables. */
    var customerName: string
    var mobile: string
    var orderDate: string
    var regularKg: int
    var blanketsKg: int
    var whitePieces: int
    /** The bill summary text box. */
    var billText: seq<BillLine>
    /** The search box. */
    var searchTerm: string
    /** The tree's attached items, top to bottom: what `tree.get_children()` returns. */
    var attached: seq<TreeItem>
    /** Every item the last load inserted, attached or detached, in load order. */
    var items: seq<TreeItem>
    /** The listing the last load displayed. */
    ghost var listing: seq<Order>

    ghost predicate Valid()
      reads db
    {
      db.Valid()
    }

    /** The form as `clear_form` leaves it. */
    ghost predicate FormCleared(today: Date)
      reads this
      requires ValidDate(today)
    {
      && customerName == "" && mobile == "" && orderDate == IsoText(today)
      && regularKg == 0 && blanketsKg == 0 && whitePieces == 0
      && billText == []
    }

    /** The tree shows every row of the table once, newest first, with nothing detached. */
    ghost predicate TreeShowsTable()
      reads this, db
    {
      && NewestFirst(listing)
      && ListsAllRows(listing, db.rows)
      && attached == ItemsOf(listing)
      && items == attached
    }

    /** `__init__`: an empty form dated today and an empty search, then `load_orders`. */
    constructor (table: OrdersTable, today: Date)
      requires table.Valid() && ValidDate(today)
      ensures db == table && Valid() && FormCleared(today) && searchTerm == "" && TreeShowsTable()
      ensures table.rows == old(table.rows) && table.nextId == old(table.nextId)
    {
      db := table;
      customerName, mobile, orderDate := "", "", IsoText(today);
      regularKg, blanketsKg, whitePieces := 0, 0, 0;
      billText := [];
      searchTerm := "";
      attached, items := [], [];
      listing := [];
      new;
      LoadTree();
    }

    /** `calculate_bill`: the bill summary of the form's quantities replaces the text box's content. */
    method ShowBill()
      modifies this`billText
      ensures IsBillSummary(billText, regularKg, blanketsKg, whitePieces)
    {
      billText := BillLines(regularKg, blanketsKg, whitePieces);
    }

    /** `clear_form`: empty name and mobile, today's date, zero quantities, an empty bill. */
    method ClearForm(today: Date)
      requires ValidDate(today)
      modifies this`customerName, this`mobile, this`orderDate, this`regularKg, this`blanketsKg, this`whitePieces, this`billText
      ensures FormCleared(today)
    {
      customerName := "";
      mobile := "";
      orderDate := IsoText(today);
      regularKg := 0;
      blanketsKg := 0;
      whitePieces := 0;
      billText := [];
    }

    /**
     * `load_orders`: delete every attached item, then insert one item per row
     * of `SELECT ... ORDER BY created_at DESC`, in that order.
     */
    method LoadTree()
      requires Valid()
      modifies this`attached, this`items, this`listing
      ensures Valid() && TreeShowsTable()
    {
      // `tree.delete(item)` for each attached child leaves the tree empty
      var children: seq<TreeItem> := [];
      var list := db.LoadOrders();
      for i := 0 to |list|
        invariant |children| == i
        invariant forall j :: 0 <= j < i ==> children[j] == ItemOf(list[j])
      {
        children := children + [ItemOf(list[i])];
      }
      attached, items := children, children;
      listing := list;
    }

    /**
     * `filter_orders` as written: it walks `tree.get_children()`, which holds
     * only the attached items, moving each match to the end and detaching the
     * rest, until it meets a name that came back as a non-zero `int`, where
     * `.lower()` raises and the walk stops. Before that point the matching part
     * of what was attached stays, moved behind the items not yet visited.
     */
    method FilterOrdersAsWritten() returns (raised: bool)
      modifies this`attached
      ensures var k := CrashPoint(old(attached));
              && raised == (k < |old(attached)|)
              && attached == old(attached)[k..] + KeepAsWritten(old(attached)[..k], Lower(searchTerm))
    {
      var term := Lower(searchTerm);
      var children := attached;
      var visible := attached;
      var i := 0;
      while i < |children| && !NameRaises(children[i])
        invariant i <= CrashPoint(children)
        invariant visible == children[i..] + KeepAsWritten(children[..i], term)
      {
        CrashPointPast(children, i);
        // `children[i]` is the first visible item: the earlier ones were moved behind it or detached
        SearchStep(children, i, term, visible);
        if MatchesAsWritten(children[i], term) {
          visible := visible[1..] + [visible[0]];
        } else {
          visible := visible[1..];
        }
        i := i + 1;
      }
      assert i == CrashPoint(children);
      raised := i < |children|;
      attached := visible;
    }

    /**
     * The search filter over every loaded item: detach them all, then
     * reattach, in load order, those whose name contains the lowered term.
     * The result depends on the term alone, so a wider search shows again
     * what a narrower one hid.
     */
    method FilterOrders()
      modifies this`attached
      ensures attached == Keep(items, Lower(searchTerm))
    {
      var term := Lower(searchTerm);
      var visible := [];
      for i := 0 to |items|
        invariant visible == Keep(items[..i], term)
      {
        assert items[..i + 1][..i] == items[..i];
        if Matches(items[i], term) {
          visible := visible + [items[i]];
        }
      }
      assert items[..|items|] == items;
      attached := visible;
    }

    /** What a successful save does to the window: `clear_form`, then `load_orders`. */
    method ClearAndReload(today: Date)
      requires Valid() && ValidDate(today)
      modifies this`customerName, this`mobile, this`orderDate, this`regularKg, this`blanketsKg, this`whitePieces,
               this`billText, this`attached, this`items, this`listing
      ensures Valid() && FormCleared(today) && TreeShowsTable() && unchanged(db)
    {
      ClearForm(today);
      LoadTree();
    }

    /**
     * The database half of `save_order`: look up the latest receipt with
     * today's prefix, generate the next number and insert the row under it.
     * An unreadable receipt or a refused INSERT writes nothing. When every
     * receipt in the table is in order, the insert succeeds, its number lies
     * above every number of the day, and the table stays in order.
     */
    method InsertWithReceipt(today: Date, data: OrderData, now: int) returns (out: SaveResult)
      requires Valid() && ValidDate(today)
      modifies db
      ensures Valid() && db.nextId == old(db.nextId) + CounterStep(out)
      ensures out != MissingFields
      ensures !out.SavedOrder? ==> db.rows == old(db.rows)
      ensures out == ReceiptUnreadable ==>
                exists last :: IsLatestWithPrefix(old(db.rows), Prefix(today), last) && GenerateReceiptNumber(today, last).None?
      ensures out == InsertFailed ==>
                exists last :: IsLatestWithPrefix(old(db.rows), Prefix(today), last) &&
                  GenerateReceiptNumber(today, last).Some? && ReceiptTaken(old(db.rows), GenerateReceiptNumber(today, last).value)
      ensures out.SavedOrder? ==> InsertedUnder(old(db.rows), old(db.nextId), db.rows, today, data, now, out)
      ensures ReceiptsOrdered(old(db.rows)) ==> out.SavedOrder? && ReceiptNumberAbove(old(db.rows), db.rows, today, out)
    {
      ghost var before, counter := db.rows, db.nextId;
      var last := db.LatestReceiptWithPrefix(Prefix(today));
      var receipt := GenerateReceiptNumber(today, last);
      ghost var ordered := ReceiptsOrdered(before);
      if receipt.None? {
        if ordered {
          GeneratedAboveDay(before, today, last);
          assert false;
        }
        return ReceiptUnreadable;
      }
      if ordered {
        OrderedSaveGoesThrough(before, counter, today, last, receipt, data, now);
      }
      var r := db.Insert(receipt, data, now);
      if r.Err? {
        if ordered {
          assert false;
        }
        return InsertFailed;
      }
      out := SavedOrder(r.value, receipt.value);
      assert InsertedUnder(before, counter, db.rows, today, data, now, out);
    }

    /**
     * Saving a validated record: insert it under a fresh receipt number, and
     * on success clear the form and reload the tree. On failure nothing
     * changes.
     */
    method SaveRecord(today: Date, data: OrderData, now: int) returns (out: SaveResult)
      requires Valid() && ValidDate(today)
      modifies this, db
      ensures Valid() && db.nextId == old(db.nextId) + CounterStep(out) && out != MissingFields
      ensures !out.SavedOrder? ==> db.rows == old(db.rows) && unchanged(this)
      ensures out.SavedOrder? ==>
                && InsertedUnder(old(db.rows), old(db.nextId), db.rows, today, data, now, out)
                && FormCleared(today) && searchTerm == old(searchTerm) && TreeShowsTable()
      ensures ReceiptsOrdered(old(db.rows)) ==> out.SavedOrder? && ReceiptNumberAbove(old(db.rows), db.rows, today, out)
    {
      // the table is a different object from the window, so writing to it leaves the form alone
      assert (this as object) != (db as object);
      out := InsertWithReceipt(today, data, now);
      if out.SavedOrder? {
        ClearAndReload(today);
      }
    }

    /**
     * `save_order`. The stripped name and date must be non-empty, otherwise
     * nothing happens. The row stores the record the form yields; a
     * successful save clears the form and reloads the tree, a failed one
     * leaves everything as it was.
     */
    method SaveOrder(today: Date, now: int) returns (out: SaveResult)
      requires Valid() && ValidDate(today)
      modifies this, db
      ensures Valid() && db.nextId == old(db.nextId) + CounterStep(out)
      ensures FormRecord(old(customerName), old(mobile), old(orderDate), old(regularKg), old(blanketsKg), old(whitePieces)).None? ==>
                out == MissingFields && db.nextId == old(db.nextId)
      ensures !out.SavedOrder? ==> db.rows == old(db.rows) && unchanged(this)
      ensures out.SavedOrder? ==>
                && InsertedUnder(old(db.rows), old(db.nextId), db.rows, today,
                     FormRecord(old(customerName), old(mobile), old(orderDate), old(regularKg), old(blanketsKg), old(whitePieces)).value,
                     now, out)
                && FormCleared(today) && searchTerm == old(searchTerm) && TreeShowsTable()
      ensures ReceiptsOrdered(old(db.rows)) &&
              FormRecord(old(customerName), old(mobile), old(orderDate), old(regularKg), old(blanketsKg), old(whitePieces)).Some? ==>
                out.SavedOrder? && ReceiptNumberAbove(old(db.rows), db.rows, today, out)
    {
      var data := FormRecord(customerName, mobile, orderDate, regularKg, blanketsKg, whitePieces);
      if data.None? {
        return MissingFields;
      }
      out := SaveRecord(today, data.value, now);
    }

    /** The UPDATE the edit window sends for `id`, followed by a reload of the tree. No field is checked or stripped. */
    method UpdateRow(id: int, name: string, phone: string, date: string, regular: int, blankets: int, white: int)
      requires Valid()
      modifies this`attached, this`items, this`listing, db
      ensures Valid() && db.nextId == old(db.nextId) && TreeShowsTable()
      ensures id in old(db.rows) ==>
                db.rows == old(db.rows)[id := old(db.rows)[id].(fields :=
                  OrderData(name, phone, date, regular, blankets, white, DesktopTotal(regular, blankets, white)))]
                && Consistent(db.rows[id].fields)
      ensures id !in old(db.rows) ==> db.rows == old(db.rows)
      ensures ReceiptsOrdered(old(db.rows)) ==> ReceiptsOrdered(db.rows)
    {
      var total := DesktopTotal(regular, blankets, white);
      ghost var before := db.rows;
      var data := OrderData(name, phone, date, regular, blankets, white, total);
      var _ := db.Update(id, data);
      if ReceiptsOrdered(before) && id in before {
        ReceiptsOrderedAfterUpdate(before, id, data);
      }
      LoadTree();
    }

    /** The DELETE for `id`, followed by a reload of the tree. */
    method DeleteRow(id: int)
      requires Valid()
      modifies this`attached, this`items, this`listing, db
      ensures Valid() && db.nextId == old(db.nextId) && TreeShowsTable()
      ensures db.rows == old(db.rows) - {id}
      ensures ReceiptsOrdered(old(db.rows)) ==> ReceiptsOrdered(db.rows)
    {
      ghost var before := db.rows;
      var _ := db.Delete(id);
      if ReceiptsOrdered(before) {
        ReceiptsOrderedAfterDelete(before, id);
      }
      LoadTree();
    }

    /**
     * `edit_order` and the edit window's `update_order` as written: the id
     * sent is the receipt cell of the selected item, which MySQL turns into
     * the number its leading digits spell. A cell without leading digits
     * becomes 0, and the UPDATE matches no row.
     */
    method EditOrderAsWritten(selected: Option<nat>, name: string, phone: string, date: string,
                              regular: int, blankets: int, white: int) returns (out: EditResult)
      requires Valid() && (selected.Some? ==> selected.value < |attached|)
      modifies this`attached, this`items, this`listing, db
      ensures Valid() && db.nextId == old(db.nextId)
      ensures selected.None? ==> out == NothingSelected && db.rows == old(db.rows) && unchanged(this)
      ensures selected.Some? ==> out == UpdateSent && TreeShowsTable()
      ensures selected.Some? ==>
                var id := MySqlInt(old(attached)[selected.value].receiptCell);
                && (id in old(db.rows) ==>
                      db.rows == old(db.rows)[id := old(db.rows)[id].(fields :=
                        OrderData(name, phone, date, regular, blankets, white, DesktopTotal(regular, blankets, white)))])
                && (id !in old(db.rows) ==> db.rows == old(db.rows))
      ensures selected.Some? && LeadingDigits(old(attached)[selected.value].receiptCell) == [] ==>
                db.rows == old(db.rows)
      ensures ReceiptsOrdered(old(db.rows)) ==> ReceiptsOrdered(db.rows)
    {
      if selected.None? {
        return NothingSelected;
      }
      var cell := attached[selected.value].receiptCell;
      UpdateRow(MySqlInt(cell), name, phone, date, regular, blankets, white);
      out := UpdateSent;
    }

    /**
     * The edit path with the selected item's own row id: exactly the seven
     * columns of that row are rewritten, with the inline total of the
     * entered quantities.
     */
    method EditOrder(selected: Option<nat>, name: string, phone: string, date: string,
                     regular: int, blankets: int, white: int) returns (out: EditResult)
      requires Valid() && (selected.Some? ==> selected.value < |attached|)
      modifies this`attached, this`items, this`listing, db
      ensures Valid() && db.nextId == old(db.nextId)
      ensures selected.None? ==> out == NothingSelected && db.rows == old(db.rows) && unchanged(this)
      ensures selected.Some? ==> out == UpdateSent && TreeShowsTable()
      ensures selected.Some? ==>
                var id := old(attached)[selected.value].rowId;
                && (id in old(db.rows) ==>
                      db.rows == old(db.rows)[id := old(db.rows)[id].(fields :=
                        OrderData(name, phone, date, regular, blankets, white, DesktopTotal(regular, blankets, white)))])
                && (id !in old(db.rows) ==> db.rows == old(db.rows))
      ensures ReceiptsOrdered(old(db.rows)) ==> ReceiptsOrdered(db.rows)
    {
      if selected.None? {
        return NothingSelected;
      }
      UpdateRow(attached[selected.value].rowId, name, phone, date, regular, blankets, white);
      out := UpdateSent;
    }

    /** `delete_order` as written: the receipt cell is sent as the id, and a cell without leading digits deletes nothing. */
    method DeleteOrderAsWritten(selected: Option<nat>, confirmed: bool) returns (out: DeleteResult)
      requires Valid() && (selected.Some? ==> selected.value < |attached|)
      modifies this`attached, this`items, this`listing, db
      ensures Valid() && db.nextId == old(db.nextId)
      ensures selected.None? ==> out == NoRowSelected && db.rows == old(db.rows) && unchanged(this)
      ensures selected.Some? && !confirmed ==> out == DeleteCancelled && db.rows == old(db.rows) && unchanged(this)
      ensures selected.Some? && confirmed ==>
                && out == DeleteSent && TreeShowsTable()
                && db.rows == old(db.rows) - {MySqlInt(old(attached)[selected.value].receiptCell)}
      ensures selected.Some? && LeadingDigits(old(attached)[selected.value].receiptCell) == [] ==>
                db.rows == old(db.rows)
      ensures ReceiptsOrdered(old(db.rows)) ==> ReceiptsOrdered(db.rows)
    {
      if selected.None? {
        return NoRowSelected;
      }
      if !confirmed {
        return DeleteCancelled;
      }
      var cell := attached[selected.value].receiptCell;
      DeleteRow(MySqlInt(cell));
      out := DeleteSent;
    }

    /** The delete path with the selected item's own row id: that row, and only it, is removed. */
    method DeleteOrder(selected: Option<nat>, confirmed: bool) returns (out: DeleteResult)
      requires Valid() && (selected.Some? ==> selected.value < |attached|)
      modifies this`attached, this`items, this`listing, db
      ensures Valid() && db.nextId == old(db.nextId)
      ensures selected.None? ==> out == NoRowSelected && db.rows == old(db.rows) && unchanged(this)
      ensures selected.Some? && !confirmed ==> out == DeleteCancelled && db.rows == old(db.rows) && unchanged(this)
      ensures selected.Some? && confirmed ==>
                out == DeleteSent && TreeShowsTable() &&
                db.rows == old(db.rows) - {old(attached)[selected.value].rowId}
      ensures ReceiptsOrdered(old(db.rows)) ==> ReceiptsOrdered(db.rows)
    {
      if selected.None? {
        return NoRowSelected;
      }
      if !confirmed {
        return DeleteCancelled;
      }
      DeleteRow(attached[selected.value].rowId);
      out := DeleteSent;
    }
  }

  /** A tree loaded from the table shows each row under its own id, so the corrected paths reach the row displayed. */
  lemma LoadedItemsNameTheirRows(listing: seq<Order>, rows: map<int, Order>, i: int)
    requires ListsAllRows(listing, rows) && 0 <= i < |listing|
    ensures ItemsOf(listing)[i].rowId in rows
    ensures ItemOf(rows[ItemsOf(listing)[i].rowId]) == ItemsOf(listing)[i]
  {
  }
}
