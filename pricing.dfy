/**
 * The price list and the bill computed from three service quantities.
 *
 * Weights are kept in hundredths of a kilogram and the piece count as a plain
 * integer, matching the DECIMAL(5,2) and INT columns; every amount is in
 * hundredths of a rupee, matching DECIMAL(10,2). With these units the rates
 * multiply exactly: no rounding happens anywhere in the computation.
 */
module Pricing {

  /** Rupees per kilogram of regular clothes. */
  const RegularRate: int := 50
  /** Rupees per kilogram of blankets and bedsheets. */
  const BlanketsRate: int := 100
  /** Rupees per piece of white clothes. */
  const WhiteRate: int := 40

  /** The breakdown `calculate_bill` returns, every amount in hundredths of a rupee. */
  datatype Bill = Bill(regularCost: int, blanketsCost: int, whiteCost: int, total: int)

  /**
   * The web app's `calculate_bill`. It accepts any quantities (the form's
   * minimum of zero is the caller's business) and has no error case.
   */
  function CalculateBill(regularKg: int, blanketsKg: int, whitePieces: int): (b: Bill)
    ensures b.regularCost == regularKg * RegularRate
    ensures b.blanketsCost == blanketsKg * BlanketsRate
    ensures b.whiteCost == whitePieces * 100 * WhiteRate
    ensures b.total == b.regularCost + b.blanketsCost + b.whiteCost
    ensures regularKg >= 0 && blanketsKg >= 0 && whitePieces >= 0 ==>
              b.regularCost >= 0 && b.blanketsCost >= 0 && b.whiteCost >= 0 && b.total >= 0
  {
    var regularCost := regularKg * RegularRate;
    var blanketsCost := blanketsKg * BlanketsRate;
    var whiteCost := whitePieces * 100 * WhiteRate;
    Bill(regularCost, blanketsCost, whiteCost, regularCost + blanketsCost + whiteCost)
  }

  /**
   * The desktop app's inline total, written out where it saves or edits. It
   * agrees with the web bill's total on every input.
   */
  function DesktopTotal(regularKg: int, blanketsKg: int, whitePieces: int): (t: int)
    ensures t == CalculateBill(regularKg, blanketsKg, whitePieces).total
  {
    regularKg * RegularRate + blanketsKg * BlanketsRate + whitePieces * 100 * WhiteRate
  }

  /** 2.0 kg regular, 1.0 kg blankets and 3 white pieces cost 320.00. */
  lemma WorkedExample()
    ensures CalculateBill(200, 100, 3).total == 32000
  {
  }

  /** With non-negative quantities the total is zero exactly when nothing was ordered. */
  lemma TotalZeroIffNothingOrdered(regularKg: int, blanketsKg: int, whitePieces: int)
    requires regularKg >= 0 && blanketsKg >= 0 && whitePieces >= 0
    ensures (CalculateBill(regularKg, blanketsKg, whitePieces).total == 0) <==>
            (regularKg == 0 && blanketsKg == 0 && whitePieces == 0)
  {
  }

  /** The bill is linear: the bill of summed quantities is the sum of the bills. */
  lemma BillAdditive(r1: int, b1: int, w1: int, r2: int, b2: int, w2: int)
    ensures CalculateBill(r1 + r2, b1 + b2, w1 + w2).total ==
            CalculateBill(r1, b1, w1).total + CalculateBill(r2, b2, w2).total
  {
  }

  /** Ordering more of any service never lowers the total. */
  lemma BillMonotone(r1: int, b1: int, w1: int, r2: int, b2: int, w2: int)
    requires r1 <= r2 && b1 <= b2 && w1 <= w2
    ensures CalculateBill(r1, b1, w1).total <= CalculateBill(r2, b2, w2).total
  {
  }
}
