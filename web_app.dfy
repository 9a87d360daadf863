/**
 * The Streamlit front end's order handling: the save flows of the "New Order"
 * page and the history page's "Add New Order" section, the edit and delete
 * sections with their selection lists, and the history page's row filters.
 * Widget values arrive as parameters; the CSV backup is not modelled.
 */
module WebApp {
  import opened Wrappers
  import opened Text
  import opened Dates
  import opened Pricing
  import opened Orders
  import Receipts

  /**
   * The `order_data` dictionary the save and update flows build: the typed
   * values, the date as `YYYY-MM-DD` and the total of `calculate_bill` on the
   * very quantities stored beside it.
   */
  function BuildOrderData(name: string, mobile: string, date: Date, regularKg: int, blanketsKg: int, whitePieces: int): (d: OrderData)
    requires ValidDate(date)
    ensures Consistent(d)
    ensures d.customerName == name && d.mobileNumber == mobile && d.orderDate == IsoText(date)
    ensures d.regularKg == regularKg && d.blanketsKg == blanketsKg && d.whitePieces == whitePieces
  {
    OrderData(name, mobile, IsoText(date), regularKg, blanketsKg, whitePieces,
              CalculateBill(regularKg, blanketsKg, whitePieces).total)
  }

  /** The bill summary and the save button appear only when some quantity is positive. */
  predicate SaveOffered(regularKg: int, blanketsKg: int, whitePieces: int) {
    regularKg > 0 || blanketsKg > 0 || whitePieces > 0
  }

  datatype SaveOutcome = NotOffered | SaveRejected | Saved(id: int)

  /**
   * Pressing "Save Order" on the new-order page (or "Save New Order" in the
   * history page's add section). Nothing is written when no quantity is
   * positive (no button) or when the name or the date is missing; otherwise
   * one row is inserted with no receipt number, so the insert cannot clash.
   * A row without a receipt leaves the desktop's receipt ordering intact.
   */
  method SaveNewOrder(db: OrdersTable, name: string, mobile: string, date: Option<Date>,
                      regularKg: int, blanketsKg: int, whitePieces: int, now: int)
      returns (out: SaveOutcome)
    requires db.Valid() && (date.Some? ==> ValidDate(date.value))
    modifies db
    ensures db.Valid()
    ensures !SaveOffered(regularKg, blanketsKg, whitePieces) ==>
              out == NotOffered && db.rows == old(db.rows) && db.nextId == old(db.nextId)
    ensures SaveOffered(regularKg, blanketsKg, whitePieces) && (name == "" || date.None?) ==>
              out == SaveRejected && db.rows == old(db.rows) && db.nextId == old(db.nextId)
    ensures SaveOffered(regularKg, blanketsKg, whitePieces) && name != "" && date.Some? ==>
              out == Saved(old(db.nextId)) && old(db.nextId) !in old(db.rows) &&
              db.rows == old(db.rows)[old(db.nextId) :=
                Order(old(db.nextId), None, BuildOrderData(name, mobile, date.value, regularKg, blanketsKg, whitePieces), now)]
    ensures out.Saved? ==> Consistent(db.rows[out.id].fields)
    ensures Receipts.ReceiptsOrdered(old(db.rows)) ==> Receipts.ReceiptsOrdered(db.rows)
  {
    if !SaveOffered(regularKg, blanketsKg, whitePieces) {
      return NotOffered;
    }
    if name == "" || date.None? {
      return SaveRejected;
    }
    var data := BuildOrderData(name, mobile, date.value, regularKg, blanketsKg, whitePieces);
    ghost var before := db.rows;
    ghost var id := db.nextId;
    var r := db.Insert(None, data, now);
    if Receipts.ReceiptsOrdered(before) {
      Receipts.ReceiptsOrderedAfterInsert(before, Order(id, None, data, now));
    }
    out := Saved(r.value);
  }

  datatype EditOutcome = EditNotFound | EditRejected | Updated

  /**
   * The edit section once an order is selected: the row is fetched by id (an
   * unknown id shows nothing), and "Update Order" writes the seven columns
   * only when the name and the date are present.
   */
  method EditOrder(db: OrdersTable, orderId: int, name: string, mobile: string, date: Option<Date>,
                   regularKg: int, blanketsKg: int, whitePieces: int)
      returns (out: EditOutcome)
    requires db.Valid() && (date.Some? ==> ValidDate(date.value))
    modifies db
    ensures db.Valid() && db.nextId == old(db.nextId)
    ensures orderId !in old(db.rows) ==> out == EditNotFound && db.rows == old(db.rows)
    ensures orderId in old(db.rows) && (name == "" || date.None?) ==>
              out == EditRejected && db.rows == old(db.rows)
    ensures orderId in old(db.rows) && name != "" && date.Some? ==>
              out == Updated &&
              db.rows == old(db.rows)[orderId := old(db.rows)[orderId].(
                fields := BuildOrderData(name, mobile, date.value, regularKg, blanketsKg, whitePieces))]
    ensures out == Updated ==> Consistent(db.rows[orderId].fields)
    ensures Receipts.ReceiptsOrdered(old(db.rows)) ==> Receipts.ReceiptsOrdered(db.rows)
  {
    var current := db.GetById(orderId);
    if current.None? {
      return EditNotFound;
    }
    if name == "" || date.None? {
      return EditRejected;
    }
    var data := BuildOrderData(name, mobile, date.value, regularKg, blanketsKg, whitePieces);
    ghost var before := db.rows;
    var _ := db.Update(orderId, data);
    if Receipts.ReceiptsOrdered(before) {
      Receipts.ReceiptsOrderedAfterUpdate(before, orderId, data);
    }
    out := Updated;
  }

  datatype DeleteOutcome = DeleteNotFound | NotConfirmed | Deleted

  /**
   * The delete section once an order is selected: the row is fetched by id
   * for the confirmation view, and it is deleted only after the checkbox is
   * ticked and the button pressed (`confirmed`).
   */
  method DeleteSelected(db: OrdersTable, orderId: int, confirmed: bool) returns (out: DeleteOutcome)
    requires db.Valid()
    modifies db
    ensures db.Valid() && db.nextId == old(db.nextId)
    ensures orderId !in old(db.rows) ==> out == DeleteNotFound && db.rows == old(db.rows)
    ensures orderId in old(db.rows) && !confirmed ==> out == NotConfirmed && db.rows == old(db.rows)
    ensures orderId in old(db.rows) && confirmed ==> out == Deleted && db.rows == old(db.rows) - {orderId}
    ensures Receipts.ReceiptsOrdered(old(db.rows)) ==> Receipts.ReceiptsOrdered(db.rows)
  {
    var current := db.GetById(orderId);
    if current.None? {
      return DeleteNotFound;
    }
    if !confirmed {
      return NotConfirmed;
    }
    var _ := db.Delete(orderId);
    out := Deleted;
  }

  // ---------------------------------------------------------------- selection lists

  /** `str(n)` for any integer. */
  function IntText(n: int): string {
    if n < 0 then "-" + Decimal(-n) else Decimal(n)
  }

  /** `f"{x:.2f}"` of an amount held in hundredths. */
  function MoneyText(cents: int): string {
    if cents < 0 then "-" + UnsignedMoneyText(-cents) else UnsignedMoneyText(cents)
  }

  function UnsignedMoneyText(cents: nat): string {
    Decimal(cents / 100) + "." + ZeroPad(Decimal(cents % 100), 2)
  }

  /** One entry of `order_options`: `ID: {id} - {name} - ₹{total:.2f} - {date}`. */
  function OptionLabel(o: Order): string {
    "ID: " + IntText(o.id) + " - " + LabelTail(o)
  }

  /** What follows the id in a label: `{name} - ₹{total:.2f} - {date}`. */
  function LabelTail(o: Order): string {
    o.fields.customerName + " - ₹" + MoneyText(o.fields.totalAmount) + " - " + o.fields.orderDate
  }

  /**
   * `int(selected.split(" - ")[0].replace("ID: ", ""))`; None where `int`
   * raises, that is unless the field left after removing `"ID: "` is a
   * non-empty run of digits, whose value is then the id.
   */
  function SelectedOrderId(selected: string): (r: Option<int>)
    ensures var field := RemoveAll(FirstField(selected, " - "), "ID: ");
            && (r.Some? <==> field != [] && AllDigits(field))
            && (r.Some? ==> r.value >= 0 && r.value == DecimalValue(field))
  {
    match ParseInt(RemoveAll(FirstField(selected, " - "), "ID: "))
    case None => None
    case Some(n) => Some(n)
  }

  /** A text whose first or second character differs from the separator's does not start with it. */
  lemma FirstFieldStep(s: string, sep: string)
    requires |sep| > 1 && s != []
    requires s[0] != sep[0] || (|s| > 1 && s[1] != sep[1])
    ensures FirstField(s, sep) == [s[0]] + FirstField(s[1..], sep)
  {
  }

  /** After the blank that ends `"ID: "`, the first field is the id's digits. */
  lemma BlankThenDigitsField(d: string, rest: string)
    requires AllDigits(d)
    ensures FirstField(" " + (d + " - " + rest), " - ") == " " + d
  {
    var x := d + " - " + rest;
    var s3 := " " + x;
    assert s3[1..] == x;
    assert s3[1] != '-' by {
      if d == [] { assert x[0] == ' '; } else { assert x[0] == d[0]; }
    }
    FirstFieldStep(s3, " - ");
    FirstFieldOfDigits(d, rest);
  }

  /** The first `" - "` field of a label is `"ID: "` and the id's digits, whatever the rest holds. */
  lemma IdFieldFirst(d: string, rest: string)
    requires AllDigits(d)
    ensures FirstField("ID: " + d + " - " + rest, " - ") == "ID: " + d
  {
    var x := d + " - " + rest;
    var s0, s1, s2 := "ID: " + d + " - " + rest, "D: " + x, ": " + x;
    assert s0 == "ID: " + x;
    assert s0[1..] == s1 && s1[1..] == s2 && s2[1..] == " " + x;
    FirstFieldStep(s0, " - ");
    FirstFieldStep(s1, " - ");
    FirstFieldStep(s2, " - ");
    BlankThenDigitsField(d, rest);
  }

  /** Every label leads back to the id of its row, whatever the customer's name contains. */
  lemma OptionRoundTrip(o: Order)
    requires o.id >= 0
    ensures SelectedOrderId(OptionLabel(o)) == Some(o.id)
  {
    var d := Decimal(o.id);
    IdFieldFirst(d, LabelTail(o));
    var field := "ID: " + d;
    assert IsPrefix("ID: ", field) && field[4..] == d;
    RemoveAllFromDigits(d, "ID: ");
    DecimalRoundTrip(o.id);
  }

  /**
   * The loop of `edit_order_section` and `delete_order_section` that builds
   * `order_options` from the loaded rows: one label per row, in row order,
   * and each label's parsed id is the id of its row.
   */
  method OrderOptions(rows: seq<Order>) returns (options: seq<string>)
    ensures |options| == |rows|
    ensures forall i :: 0 <= i < |rows| ==> options[i] == OptionLabel(rows[i])
    ensures forall i :: 0 <= i < |rows| && rows[i].id >= 0 ==> SelectedOrderId(options[i]) == Some(rows[i].id)
  {
    options := [];
    for i := 0 to |rows|
      invariant |options| == i
      invariant forall j :: 0 <= j < i ==> options[j] == OptionLabel(rows[j])
    {
      options := options + [OptionLabel(rows[i])];
    }
    forall i | 0 <= i < |rows| && rows[i].id >= 0
      ensures SelectedOrderId(options[i]) == Some(rows[i].id)
    {
      OptionRoundTrip(rows[i]);
    }
  }

  // ---------------------------------------------------------------- history filters

  /** Boolean indexing `df[mask]`: the rows `keep` accepts, in their order. */
  function Select(rows: seq<Order>, keep: Order -> bool): (r: seq<Order>)
    ensures |r| <= |rows|
    ensures forall o :: o in r <==> o in rows && keep(o)
  {
    if rows == [] then []
    else if keep(rows[0]) then [rows[0]] + Select(rows[1..], keep)
    else Select(rows[1..], keep)
  }

  /** Selection distributes over concatenation: it keeps rows in their original order. */
  lemma {:induction false} SelectAppend(a: seq<Order>, b: seq<Order>, keep: Order -> bool)
    ensures Select(a + b, keep) == Select(a, keep) + Select(b, keep)
  {
    if a == [] {
      assert a + b == b;
    } else {
      assert (a + b)[0] == a[0] && (a + b)[1..] == a[1..] + b;
      SelectAppend(a[1..], b, keep);
    }
  }

  /** A mask true on every row returns the frame unchanged. */
  lemma {:induction false} SelectAll(rows: seq<Order>, keep: Order -> bool)
    requires forall o :: o in rows ==> keep(o)
    ensures Select(rows, keep) == rows
  {
    if rows != [] {
      assert rows[0] in rows;
      assert forall o :: o in rows[1..] ==> o in rows;
      SelectAll(rows[1..], keep);
    }
  }

  /** A mask false on every row returns an empty frame. */
  lemma {:induction false} SelectNone(rows: seq<Order>, keep: Order -> bool)
    requires forall o :: o in rows ==> !keep(o)
    ensures Select(rows, keep) == []
  {
    if rows != [] {
      assert rows[0] in rows;
      assert forall o :: o in rows[1..] ==> o in rows;
      SelectNone(rows[1..], keep);
    }
  }

  /** Two masks applied one after the other are one mask of their conjunction. */
  lemma {:induction false} SelectSelect(rows: seq<Order>, p: Order -> bool, q: Order -> bool, both: Order -> bool)
    requires forall o :: both(o) == (p(o) && q(o))
    ensures Select(Select(rows, p), q) == Select(rows, both)
  {
    if rows != [] {
      SelectSelect(rows[1..], p, q, both);
    }
  }

  /** The filter widgets of `view_orders_section`: search text, optional date, minimum amount in hundredths. */
  datatype HistoryFilter = HistoryFilter(searchName: string, date: Option<Date>, minAmount: int)

  predicate ValidFilter(f: HistoryFilter) {
    f.date.Some? ==> ValidDate(f.date.value)
  }

  /** The filter that leaves everything through: empty search, no date, minimum 0. */
  const NoFilter := HistoryFilter("", None, 0)

  /** `customer_name.str.contains(search, case=False)`, taking the search text literally. */
  function NameMask(search: string): Order -> bool {
    (o: Order) => Contains(Lower(o.fields.customerName), Lower(search))
  }

  /** The date filter as evidently intended: the stored date equals the chosen date. */
  function DateMask(date: Date): Order -> bool
    requires ValidDate(date)
  {
    var text := IsoText(date);
    (o: Order) => o.fields.orderDate == text
  }

  /** `total_amount >= min_amount`. */
  function AmountMask(minAmount: int): Order -> bool {
    (o: Order) => o.fields.totalAmount >= minAmount
  }

  /** A row passes every active filter. */
  predicate Passes(f: HistoryFilter, o: Order)
    requires ValidFilter(f)
  {
    && (f.searchName != "" ==> Contains(Lower(o.fields.customerName), Lower(f.searchName)))
    && (f.date.Some? ==> o.fields.orderDate == IsoText(f.date.value))
    && (f.minAmount > 0 ==> o.fields.totalAmount >= f.minAmount)
  }

  /**
   * The three filters of `view_orders_section`, each applied only when its
   * widget is set, with the date filter comparing the stored date as intended.
   */
  function HistoryView(rows: seq<Order>, f: HistoryFilter): (r: seq<Order>)
    requires ValidFilter(f)
    ensures |r| <= |rows|
    ensures forall o :: o in r <==> o in rows && Passes(f, o)
  {
    var byName := if f.searchName != "" then Select(rows, NameMask(f.searchName)) else rows;
    var byDate := if f.date.Some? then Select(byName, DateMask(f.date.value)) else byName;
    if f.minAmount > 0 then Select(byDate, AmountMask(f.minAmount)) else byDate
  }

  function PassesMask(f: HistoryFilter): Order -> bool
    requires ValidFilter(f)
  {
    (o: Order) => Passes(f, o)
  }

  /**
   * The filtered view is one selection by the combined condition, so it is an
   * order-preserving subsequence of the loaded rows.
   */
  lemma HistoryViewIsSelection(rows: seq<Order>, f: HistoryFilter)
    requires ValidFilter(f)
    ensures HistoryView(rows, f) == Select(rows, PassesMask(f))
  {
    var n: Order -> bool := if f.searchName != "" then NameMask(f.searchName) else ((o: Order) => true);
    var d: Order -> bool := if f.date.Some? then DateMask(f.date.value) else ((o: Order) => true);
    var a: Order -> bool := if f.minAmount > 0 then AmountMask(f.minAmount) else ((o: Order) => true);
    var nd: Order -> bool := (o: Order) => n(o) && d(o);
    SelectAll(rows, (o: Order) => true);
    var byName := Select(rows, n);
    SelectAll(byName, (o: Order) => true);
    SelectSelect(rows, n, d, nd);
    var byDate := Select(byName, d);
    SelectAll(byDate, (o: Order) => true);
    SelectSelect(rows, nd, a, PassesMask(f));
  }

  /** With no filter set the view is the whole frame. */
  lemma NoFilterShowsAll(rows: seq<Order>)
    ensures HistoryView(rows, NoFilter) == rows
  {
  }

  // ---------------------------------------------------------------- the date filter as written

  /**
   * A cell of the loaded frame as Python sees it: the `order_date` column
   * holds `datetime.date` objects, the filter side is the `str` that
   * `strftime` returns. Python's `==` between a date and a string is False.
   */
  datatype PyValue = PyDate(iso: string) | PyStr(text: string)

  /** The date filter as written: `df['order_date'] == date_filter.strftime('%Y-%m-%d')`. */
  function DateMaskAsWritten(date: Date): (keep: Order -> bool)
    requires ValidDate(date)
    ensures forall o :: !keep(o)
  {
    var text := IsoText(date);
    (o: Order) => PyDate(o.fields.orderDate) == PyStr(text)
  }

  /**
   * The three filters as written. Choosing any date empties the view,
   * whatever the rows hold; without a date it is the intended view.
   */
  function HistoryViewAsWritten(rows: seq<Order>, f: HistoryFilter): (r: seq<Order>)
    requires ValidFilter(f)
    ensures f.date.Some? ==> r == []
    ensures f.date.None? ==> r == HistoryView(rows, f)
  {
    var byName := if f.searchName != "" then Select(rows, NameMask(f.searchName)) else rows;
    var byDate := if f.date.Some? then Select(byName, DateMaskAsWritten(f.date.value)) else byName;
    if f.date.Some? then SelectNone(byName, DateMaskAsWritten(f.date.value)); assert byDate == [];
      if f.minAmount > 0 then Select(byDate, AmountMask(f.minAmount)) else byDate
    else if f.minAmount > 0 then Select(byDate, AmountMask(f.minAmount)) else byDate
  }

  /** An order dated 15 January 2024, filtered by that date: the intended view shows it, the written one nothing. */
  lemma DateFilterCounterexample()
    ensures var o := Order(1, None, OrderData("Asha", "", "2024-01-15", 200, 0, 0, 10000), 0);
            var f := HistoryFilter("", Some(Date(2024, 1, 15)), 0);
            ValidFilter(f) && HistoryView([o], f) == [o] && HistoryViewAsWritten([o], f) == []
  {
    var o := Order(1, None, OrderData("Asha", "", "2024-01-15", 200, 0, 0, 10000), 0);
    var f := HistoryFilter("", Some(Date(2024, 1, 15)), 0);
    assert Decimal(2024) == "2024" && Decimal(1) == "1" && Decimal(15) == "15";
    assert IsoText(Date(2024, 1, 15)) == "2024-01-15";
    assert Passes(f, o);
  }
}
