/**
 * Receipt numbers of the desktop app, `RW-YYYYMMDD-NNNN`: a per-day prefix
 * and a sequence number zero-padded to at least four digits. The next number
 * is one more than the number on the highest-id row carrying today's prefix,
 * or 1 when there is none.
 */
module Receipts {
  import opened Wrappers
  import opened Text
  import opened Dates
  import opened Orders

  /** `f"RW-{today.strftime('%Y%m%d')}-"`. */
  function Prefix(today: Date): (p: string)
    requires ValidDate(today)
    ensures |p| == 12 && p[11] == '-'
  {
    "RW-" + CompactText(today) + "-"
  }

  /** `f"{n:04d}"`: the digits of `n`, zero-padded to four when it has fewer. */
  function SequenceText(n: nat): (s: string)
    ensures |s| >= 4 && AllDigits(s)
    ensures ParseInt(s) == Some(n)
    ensures n < 10000 ==> |s| == 4
  {
    PaddedRoundTrip(n, 4);
    assert Pow10(4) == 10000;
    if n < 10000 then DecimalFits(n, 4); ZeroPad(Decimal(n), 4)
    else ZeroPad(Decimal(n), 4)
  }

  function FormatReceipt(today: Date, n: nat): string
    requires ValidDate(today)
  {
    Prefix(today) + SequenceText(n)
  }

  /** `int(receipt.split('-')[-1])`; None where `int` raises. */
  function SequenceOf(receipt: string): Option<nat> {
    ParseInt(LastSegment(receipt, '-'))
  }

  /**
   * The number `generate_receipt_number` formats, given the fetched receipt:
   * 1 when nothing was fetched or the value is empty, otherwise one more than
   * its parsed sequence; None when parsing raises.
   */
  function NextSequence(last: Option<string>): Option<nat> {
    match last
    case None => Some(1)
    case Some(r) =>
      if r == "" then Some(1)
      else match SequenceOf(r)
        case None => None
        case Some(m) => Some(m + 1)
  }

  /** Splitting a formatted receipt on '-' and parsing the last part gives back the sequence number. */
  lemma ReceiptRoundTrip(today: Date, n: nat)
    requires ValidDate(today)
    ensures IsPrefix(Prefix(today), FormatReceipt(today, n))
    ensures SequenceOf(FormatReceipt(today, n)) == Some(n)
  {
    var p, t := Prefix(today), SequenceText(n);
    assert (p + t)[..|p|] == p;
    LastSegmentAfterSeparator(p, t, '-');
    PaddedRoundTrip(n, 4);
  }

  /**
   * `generate_receipt_number`, with today's date and the fetched receipt as
   * parameters. The result carries today's prefix, and parsing it back gives
   * the next sequence number; the only failure is a fetched receipt whose last
   * part is not a number.
   */
  function GenerateReceiptNumber(today: Date, last: Option<string>): (r: Option<string>)
    requires ValidDate(today)
    ensures r.None? <==> last.Some? && last.value != "" && SequenceOf(last.value).None?
    ensures r.Some? ==> IsPrefix(Prefix(today), r.value) && |r.value| >= 16
    ensures r.Some? ==> AllDigits(r.value[12..]) && ParseInt(r.value[12..]) == NextSequence(last)
    ensures r.Some? && NextSequence(last).value < 10000 ==> |r.value| == 16
    ensures r.Some? ==> SequenceOf(r.value) == NextSequence(last)
  {
    match NextSequence(last)
    case None => None
    case Some(n) =>
      ReceiptRoundTrip(today, n);
      assert FormatReceipt(today, n)[12..] == SequenceText(n);
      Some(FormatReceipt(today, n))
  }

  /** With no receipt for today yet, the day starts at `...-0001`. */
  lemma FirstReceiptOfDay(today: Date)
    requires ValidDate(today)
    ensures GenerateReceiptNumber(today, None) == Some(Prefix(today) + "0001")
  {
    assert Decimal(1) == "1";
    assert Zeros(3) == "000";
    assert SequenceText(1) == "0001";
    assert NextSequence(None) == Some(1);
  }

  /** After a receipt numbered `m`, the next one is numbered `m + 1`. */
  lemma ReceiptAfter(today: Date, day: Date, m: nat)
    requires ValidDate(today) && ValidDate(day)
    ensures GenerateReceiptNumber(today, Some(FormatReceipt(day, m))) == Some(FormatReceipt(today, m + 1))
  {
    ReceiptRoundTrip(day, m);
  }

  /** Two receipts are equal only if they were made for the same day and number. */
  lemma FormatReceiptInjective(d1: Date, n1: nat, d2: Date, n2: nat)
    requires ValidDate(d1) && ValidDate(d2)
    requires FormatReceipt(d1, n1) == FormatReceipt(d2, n2)
    ensures d1 == d2 && n1 == n2
  {
    var r := FormatReceipt(d1, n1);
    assert r[3..11] == CompactText(d1);
    assert FormatReceipt(d2, n2)[3..11] == CompactText(d2);
    CompactTextInjective(d1, d2);
    ReceiptRoundTrip(d1, n1);
    ReceiptRoundTrip(d2, n2);
  }

  // ---------------------------------------------------------------- sequential uniqueness

  /** Both receipts carry the same twelve-character `RW-YYYYMMDD-` day prefix. */
  predicate SameDay(a: string, b: string) {
    |a| >= 12 && |b| >= 12 && a[..12] == b[..12]
  }

  function SeqNo(o: Order): nat
    requires o.receipt.Some? && SequenceOf(o.receipt.value).Some?
  {
    SequenceOf(o.receipt.value).value
  }

  /** A receipt in the `RW-YYYYMMDD-N...` layout: a twelve-character day prefix and a number after the last '-'. */
  predicate WellFormed(receipt: string) {
    |receipt| >= 12 && SequenceOf(receipt).Some?
  }

  /**
   * The invariant sequential desktop saves keep: every receipt is well formed,
   * and of two receipts of the same day the one on the higher id has the
   * higher sequence number.
   */
  ghost predicate ReceiptsOrdered(rows: map<int, Order>) {
    && (forall k :: k in rows && rows[k].receipt.Some? ==> WellFormed(rows[k].receipt.value))
    && (forall j, k ::
          j in rows && k in rows && j < k && rows[j].receipt.Some? && rows[k].receipt.Some? &&
          SameDay(rows[j].receipt.value, rows[k].receipt.value) ==>
            SeqNo(rows[j]) < SeqNo(rows[k]))
  }

  /** Under the invariant no two rows share a receipt number. */
  lemma ReceiptsDistinct(rows: map<int, Order>, j: int, k: int)
    requires ReceiptsOrdered(rows)
    requires j in rows && k in rows && j != k && rows[j].receipt.Some? && rows[k].receipt.Some?
    ensures rows[j].receipt != rows[k].receipt
  {
    if rows[j].receipt == rows[k].receipt {
      assert SameDay(rows[j].receipt.value, rows[k].receipt.value);
    }
  }

  /**
   * Adding a row under a key above every existing key keeps the invariant,
   * provided its receipt, if any, is well formed and numbered above every
   * receipt of its day.
   */
  lemma ReceiptsOrderedAfterInsert(rows: map<int, Order>, o: Order)
    requires ReceiptsOrdered(rows)
    requires forall k :: k in rows ==> k < o.id
    requires o.receipt.Some? ==> WellFormed(o.receipt.value)
    requires o.receipt.Some? ==>
               forall j :: j in rows && rows[j].receipt.Some? && SameDay(rows[j].receipt.value, o.receipt.value) ==>
                 SeqNo(rows[j]) < SeqNo(o)
    ensures ReceiptsOrdered(rows[o.id := o])
  {
    var rows' := rows[o.id := o];
    forall j, k |
      j in rows' && k in rows' && j < k && rows'[j].receipt.Some? && rows'[k].receipt.Some? &&
      SameDay(rows'[j].receipt.value, rows'[k].receipt.value)
      ensures SeqNo(rows'[j]) < SeqNo(rows'[k])
    {
      if k == o.id {
        assert j in rows && rows'[j] == rows[j];
      } else {
        assert j != o.id;
      }
    }
  }

  /** The row the receipt lookup returns carries the highest number of its day. */
  lemma LatestHasHighestNumber(rows: map<int, Order>, P: string, m: int)
    requires ReceiptsOrdered(rows) && |P| == 12
    requires m in rows && HasReceiptPrefix(rows[m], P)
    requires forall j :: j in rows && HasReceiptPrefix(rows[j], P) ==> j <= m
    ensures forall j :: j in rows && HasReceiptPrefix(rows[j], P) ==> SeqNo(rows[j]) <= SeqNo(rows[m])
  {
    forall j | j in rows && HasReceiptPrefix(rows[j], P)
      ensures SeqNo(rows[j]) <= SeqNo(rows[m])
    {
      if j != m {
        assert SameDay(rows[j].receipt.value, rows[m].receipt.value);
      }
    }
  }

  /**
   * The number generated from the lookup's result lies above the number of
   * every receipt of the same day already in the table.
   */
  lemma GeneratedAboveDay(rows: map<int, Order>, today: Date, last: Option<string>)
    requires ValidDate(today)
    requires ReceiptsOrdered(rows)
    requires IsLatestWithPrefix(rows, Prefix(today), last)
    ensures GenerateReceiptNumber(today, last).Some?
    ensures forall j :: j in rows && HasReceiptPrefix(rows[j], Prefix(today)) ==>
              SeqNo(rows[j]) < NextSequence(last).value
  {
    var P := Prefix(today);
    if last.Some? {
      var m :| m in rows && HasReceiptPrefix(rows[m], P) && rows[m].receipt == last &&
               forall j :: j in rows && HasReceiptPrefix(rows[j], P) ==> j <= m;
      assert |last.value| >= 12;
      LatestHasHighestNumber(rows, P, m);
    }
  }

  /** When no row carries today's prefix, the generated number is 1. */
  lemma GeneratedFirstOfDay(rows: map<int, Order>, today: Date, last: Option<string>)
    requires ValidDate(today)
    requires IsLatestWithPrefix(rows, Prefix(today), last)
    requires forall k :: k in rows ==> !HasReceiptPrefix(rows[k], Prefix(today))
    ensures NextSequence(last) == Some(1)
  {
    if last.Some? {
      assert false;
    }
  }

  /**
   * Receipt numbers of one day have no gaps: when row `m` is the day's
   * highest-id row, the generated number is one more than its number, which
   * is the day's highest.
   */
  lemma GeneratedNextInDay(rows: map<int, Order>, today: Date, last: Option<string>, m: int)
    requires ValidDate(today)
    requires ReceiptsOrdered(rows)
    requires IsLatestWithPrefix(rows, Prefix(today), last)
    requires m in rows && HasReceiptPrefix(rows[m], Prefix(today))
    requires forall j :: j in rows && HasReceiptPrefix(rows[j], Prefix(today)) ==> j <= m
    ensures NextSequence(last) == Some(SeqNo(rows[m]) + 1)
    ensures forall j :: j in rows && HasReceiptPrefix(rows[j], Prefix(today)) ==> SeqNo(rows[j]) <= SeqNo(rows[m])
  {
    var P := Prefix(today);
    assert last == rows[m].receipt by {
      if last.None? {
        assert false;
      } else {
        var k :| k in rows && HasReceiptPrefix(rows[k], P) && rows[k].receipt == last &&
                 forall j :: j in rows && HasReceiptPrefix(rows[j], P) ==> j <= k;
        assert k <= m && m <= k;
      }
    }
    var r := rows[m].receipt.value;
    assert |r| >= 12 && SequenceOf(r).Some? by {
      assert WellFormed(r);
    }
    assert NextSequence(last) == Some(SeqNo(rows[m]) + 1);
    LatestHasHighestNumber(rows, P, m);
  }

  /**
   * A receipt generated from the lookup's result is not yet taken, and
   * inserting it under a fresh, larger id keeps the invariant. This is why
   * sequential saves on one day get strictly increasing, pairwise distinct
   * numbers.
   */
  lemma GeneratedReceiptIsFresh(rows: map<int, Order>, today: Date, last: Option<string>, o: Order)
    requires ValidDate(today)
    requires ReceiptsOrdered(rows)
    requires IsLatestWithPrefix(rows, Prefix(today), last)
    requires forall k :: k in rows ==> k < o.id
    requires o.receipt == GenerateReceiptNumber(today, last)
    ensures o.receipt.Some?
    ensures !ReceiptTaken(rows, o.receipt.value)
    ensures ReceiptsOrdered(rows[o.id := o])
  {
    GeneratedAboveDay(rows, today, last);
    var P, R := Prefix(today), o.receipt.value;
    assert R[..12] == P;
    forall j | j in rows && rows[j].receipt.Some? && SameDay(rows[j].receipt.value, R)
      ensures SeqNo(rows[j]) < SeqNo(o)
    {
      assert HasReceiptPrefix(rows[j], P);
    }
    if ReceiptTaken(rows, R) {
      var j :| j in rows && rows[j].receipt == Some(R);
      assert SameDay(R, R);
      assert false;
    }
    ReceiptsOrderedAfterInsert(rows, o);
  }

  /** Rewriting a row's seven columns leaves every receipt in place, so the invariant holds. */
  lemma ReceiptsOrderedAfterUpdate(rows: map<int, Order>, id: int, d: OrderData)
    requires ReceiptsOrdered(rows) && id in rows
    ensures ReceiptsOrdered(rows[id := rows[id].(fields := d)])
  {
    var rows' := rows[id := rows[id].(fields := d)];
    assert forall k :: k in rows' ==> k in rows && rows'[k].receipt == rows[k].receipt;
  }

  /** Deleting a row keeps the invariant. */
  lemma ReceiptsOrderedAfterDelete(rows: map<int, Order>, id: int)
    requires ReceiptsOrdered(rows)
    ensures ReceiptsOrdered(rows - {id})
  {
  }
}
