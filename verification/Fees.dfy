/** Bridging and eIBC fees: truncated decimal multiplication, the order price, its inverse by binary search, and what
    a completion hook may spend. */
module Fees {
  import opened Bytes

  /** One, as an 18-decimal fixed-point number. */
  const DEC: nat := 1_000_000_000_000_000_000

  /** Params.ValidateBasic on the bridging fee. */
  predicate ValidRate(rate: int) { 0 <= rate < DEC }

  /** BridgingFeeFromAmt: truncated towards zero. */
  function Fee(rate: nat, amt: int): (f: int)
    ensures amt >= 0 ==> f >= 0
  {
    if amt >= 0 then rate * amt / DEC else -(rate * -amt / DEC)
  }

  /** What is left of a transfer after the bridging fee. */
  function Net(rate: nat, amt: int): (n: int) { amt - Fee(rate, amt) }

  /** The fee is the rate's share of the amount, cut down to whole units, and the opposite for the opposite amount. */
  lemma FeeIsShare(rate: nat, amt: nat)
    ensures Fee(rate, amt) * 1_000_000_000_000_000_000 <= rate * amt < (Fee(rate, amt) + 1) * 1_000_000_000_000_000_000
    ensures Fee(rate, 0 - amt) == -Fee(rate, amt)
  {
    if amt == 0 { FeeOfZero(rate); }
  }

  lemma FeeOfNext(rate: nat, amt: int)
    requires ValidRate(rate)
    ensures Fee(rate, amt) <= Fee(rate, amt + 1) <= Fee(rate, amt) + 1
  {
    if amt >= 0 {
      assert rate * (amt + 1) == rate * amt + rate;
    } else {
      var n := -amt - 1;
      assert rate * (n + 1) == rate * n + rate && -amt == n + 1 && -(amt + 1) == n;
      assert Fee(rate, amt) == -(rate * (n + 1) / DEC) && Fee(rate, amt + 1) == -(rate * n / DEC);
    }
  }

  /** The fee takes less than the whole of any transfer. */
  lemma {:induction false} FeeIsLess(rate: nat, amt: nat)
    requires ValidRate(rate) && amt > 0
    ensures Fee(rate, amt) < amt
  {
    if amt == 1 {
      assert rate * 1 == rate;
    } else {
      FeeIsLess(rate, amt - 1);
      FeeOfNext(rate, amt - 1);
    }
  }

  /** A larger transfer never leaves less. */
  lemma {:induction false} NetIsMonotone(rate: nat, a: int, b: int)
    requires ValidRate(rate) && a <= b
    ensures Fee(rate, a) <= Fee(rate, b) && Net(rate, a) <= Net(rate, b)
    decreases b - a
  {
    if a < b {
      hide Fee;
      NetIsMonotone(rate, a, b - 1);
      FeeOfNext(rate, b - 1);
    }
  }

  function Sum(parts: seq<nat>): (n: nat) { if parts == [] then 0 else parts[0] + Sum(parts[1..]) }

  function FeeSum(rate: nat, parts: seq<nat>): (n: nat) {
    if parts == [] then 0 else Fee(rate, parts[0]) + FeeSum(rate, parts[1..])
  }

  lemma FeeOfSum(rate: nat, a: nat, b: nat)
    ensures Fee(rate, a) + Fee(rate, b) <= Fee(rate, a + b) <= Fee(rate, a) + Fee(rate, b) + 1
  {
    assert rate * (a + b) == rate * a + rate * b;
  }

  /** Splitting a transfer into parts saves at most one unit of fee for each part but one. */
  lemma {:induction false} SplittingSavesLittle(rate: nat, parts: seq<nat>)
    requires parts != []
    ensures FeeSum(rate, parts) <= Fee(rate, Sum(parts)) <= FeeSum(rate, parts) + |parts| - 1
  {
    hide Fee;
    if |parts| == 1 {
      assert Sum(parts[1..]) == 0 && FeeSum(rate, parts[1..]) == 0;
    } else {
      SplittingSavesLittle(rate, parts[1..]);
      FeeOfSum(rate, parts[0], Sum(parts[1..]));
    }
  }

  // ---------------------------------------------------------------- order prices

  /** CalcPriceWithBridgingFee: a price that is not positive is an error. */
  function Price(amt: int, eibcFee: int, rate: nat): (p: Option<int>) {
    var price := amt - eibcFee - Fee(rate, amt);
    if price > 0 then Some(price) else None
  }

  /** An order has a price if and only if the eIBC fee and the rate's share leave something of the transfer, and that is
      the price. */
  lemma PriceIsRest(amt: nat, eibcFee: int, rate: nat, p: int)
    ensures Price(amt, eibcFee, rate) == Some(p) <==>
              p >= 1 && (amt - eibcFee - p) * DEC <= rate * amt < (amt - eibcFee - p + 1) * DEC
  {
    var f := Fee(rate, amt);
    FeeIsShare(rate, amt);
    hide Fee;
    var g := amt - eibcFee - p;
    if g * DEC <= rate * amt < (g + 1) * DEC { OneShare(rate * amt, f, g); }
  }

  lemma OneShare(x: int, a: int, b: int)
    requires a * DEC <= x < (a + 1) * DEC && b * DEC <= x < (b + 1) * DEC
    ensures a == b
  {
  }

  const MAX_INT: nat := 0x7fff_ffff_ffff_ffff_ffff_ffff_ffff_ffff_ffff_ffff_ffff_ffff_ffff_ffff_ffff_ffff

  predicate Reaches(amt: int, target: int, eibcFee: int, rate: nat) {
    var p := Price(amt, eibcFee, rate);
    p.Some? && p.value >= target
  }

  lemma ReachesAbove(a: int, b: int, target: int, eibcFee: int, rate: nat)
    requires ValidRate(rate) && a <= b && Reaches(a, target, eibcFee, rate)
    ensures Reaches(b, target, eibcFee, rate)
  {
    NetIsMonotone(rate, a, b);
    hide Fee;
  }

  /** What reaches a target exceeds it by the eIBC fee, so the search may start at the target. */
  lemma ReachingIsAboveTarget(amt: int, target: int, eibcFee: nat, rate: nat)
    requires ValidRate(rate) && Reaches(amt, target, eibcFee, rate)
    ensures amt >= target + eibcFee
  {
    if amt < 0 { FeeOfNegative(rate, amt); }
  }

  lemma FeeOfNegative(rate: nat, amt: int)
    requires ValidRate(rate) && amt < 0
    ensures amt <= Fee(rate, amt) <= 0
  {
    hide Fee;
    FeeOfZero(rate);
    NetIsMonotone(rate, amt, 0);
  }

  lemma FeeOfZero(rate: nat)
    ensures Fee(rate, 0) == 0
  {
    assert rate * 0 == 0;
  }

  /** CalcTargetPriceAmt: the binary search finds the least transfer whose order price reaches the target, if any
      representable one does. */
  method CalcTargetPriceAmt(target: int, eibcFee: int, rate: nat) returns (ret: Option<int>)
    requires ValidRate(rate)
    ensures ret.Some? ==> target <= ret.value <= MAX_INT && Reaches(ret.value, target, eibcFee, rate)
    ensures ret.Some? ==> forall a :: target <= a < ret.value ==> !Reaches(a, target, eibcFee, rate)
    ensures ret.Some? && eibcFee >= 0 ==> forall a :: a < ret.value ==> !Reaches(a, target, eibcFee, rate)
    ensures ret.None? ==> forall a :: target <= a <= MAX_INT ==> !Reaches(a, target, eibcFee, rate)
  {
    hide Reaches;
    ret := None;
    var l: int, r: int := target, MAX_INT;
    while l <= r
      invariant target <= l && r <= MAX_INT
      invariant forall a :: target <= a < l ==> !Reaches(a, target, eibcFee, rate)
      invariant ret.None? ==> r == MAX_INT
      invariant ret.Some? ==> r + 1 == ret.value && target <= ret.value <= MAX_INT
      invariant ret.Some? ==> Reaches(ret.value, target, eibcFee, rate)
      decreases r - l
    {
      var mid := l + (r - l) / 2;
      if Reaches(mid, target, eibcFee, rate) {
        ret := Some(mid);
        r := mid - 1;
      } else {
        forall a | target <= a <= mid ensures !Reaches(a, target, eibcFee, rate) {
          if Reaches(a, target, eibcFee, rate) { ReachesAbove(a, mid, target, eibcFee, rate); }
        }
        l := mid + 1;
      }
    }
    forall a | a < target && eibcFee >= 0 ensures !Reaches(a, target, eibcFee, rate) {
      if Reaches(a, target, eibcFee, rate) { ReachingIsAboveTarget(a, target, eibcFee, rate); }
    }
  }

  // ---------------------------------------------------------------- delivery and completion hooks

  /** Balances of one denomination. */
  datatype Ledger = Ledger(receiver: nat, collector: nat, escrow: nat)

  /** Delivery through the bridging-fee middleware: the transfer, which may fail and then pays nothing, and after it
      the fee, whose failure is only logged. */
  function Deliver(b: Ledger, amt: nat, rate: nat, accepted: bool, charged: bool): (c: Ledger)
    requires (accepted ==> amt <= b.escrow) && ValidRate(rate)
  {
    if !accepted then b else
    var paid := b.(escrow := b.escrow - amt, receiver := b.receiver + amt);
    var fee := Fee(rate, amt);
    if charged && fee <= paid.receiver then paid.(receiver := paid.receiver - fee, collector := paid.collector + fee)
    else paid
  }

  /** What is delivered leaves the escrow, and the fee, if it is charged, goes from the receiver to the collector. */
  lemma DeliveryPays(b: Ledger, amt: nat, rate: nat, accepted: bool, charged: bool)
    requires (accepted ==> amt <= b.escrow) && ValidRate(rate)
    ensures var c := Deliver(b, amt, rate, accepted, charged);
            var paid, fee := if accepted then amt else 0, if accepted && charged then Fee(rate, amt) else 0;
            c.escrow == b.escrow - paid && c.collector == b.collector + fee && c.receiver == b.receiver + paid - fee
  {
    if amt > 0 { FeeIsLess(rate, amt); } else { FeeOfZero(rate); }
    hide Fee;
  }

  /** Whoever pays an order's price and is later delivered the transfer earns the eIBC fee if the rate has not
      changed, and loses if and only if the delivery is refused or the bridging fee charged has risen by more than the
      eIBC fee. */
  lemma FulfillerEarns(b: Ledger, amt: nat, eibcFee: nat, rate: nat, later: nat, accepted: bool, charged: bool)
    requires Price(amt, eibcFee, rate).Some? && ValidRate(later) && (accepted ==> amt <= b.escrow)
    requires Price(amt, eibcFee, rate).value <= b.receiver
    ensures var price := Price(amt, eibcFee, rate).value;
            var c := Deliver(b.(receiver := b.receiver - price), amt, later, accepted, charged);
            && (accepted && charged && later == rate ==> c.receiver == b.receiver + eibcFee)
            && (c.receiver < b.receiver <==> !accepted || (charged && Fee(later, amt) > Fee(rate, amt) + eibcFee))
  {
    if amt > 0 { FeeIsLess(later, amt); }
    hide Fee;
  }

  /** The budget finalizeCompletionHook gives the hook, whatever became of the delivery. */
  function Budget(amt: nat, rate: nat): (n: int) { Net(rate, amt) }

  /** Nothing is created or lost, and the hook's budget is covered by what this delivery brought if and only if the
      delivery was accepted: after a refused one the hook is offered the receiver's own funds. */
  lemma BudgetIsCovered(b: Ledger, amt: nat, rate: nat, accepted: bool, charged: bool)
    requires 0 < amt && (accepted ==> amt <= b.escrow) && ValidRate(rate)
    ensures var c := Deliver(b, amt, rate, accepted, charged);
            && c.receiver + c.collector + c.escrow == b.receiver + b.collector + b.escrow
            && Budget(amt, rate) > 0
            && (c.receiver - b.receiver >= Budget(amt, rate) <==> accepted)
            && (accepted && charged ==> c.receiver - b.receiver == Budget(amt, rate))
  {
    FeeIsLess(rate, amt);
    hide Fee;
  }

  datatype Remote = Remote(tokenDenom: bytes, feeDenom: bytes, amount: nat, maxFee: nat)

  /** forwardToHyperlane, up to the transfer it then makes: the most that costs, or an error. */
  function Forward(d: Remote, denom: bytes, budget: nat): (cost: Option<nat>) {
    if d.tokenDenom != denom || d.feeDenom != denom || d.maxFee + d.amount > budget then None
    else Some(d.amount + d.maxFee)
  }

  /** A hook that forwards the funds of a finalized packet, in its denomination, leaves the receiver what it had
      before if and only if the delivery was accepted or the forward costs nothing. */
  lemma ForwardLeavesTheRest(b: Ledger, amt: nat, rate: nat, accepted: bool, charged: bool, d: Remote, denom: bytes)
    requires 0 < amt && (accepted ==> amt <= b.escrow) && ValidRate(rate) && Budget(amt, rate) >= 0
    requires Forward(d, denom, Budget(amt, rate)).Some?
    ensures var c, cost := Deliver(b, amt, rate, accepted, charged), Forward(d, denom, Budget(amt, rate)).value;
            && d.tokenDenom == d.feeDenom == denom && cost == d.amount + d.maxFee <= Budget(amt, rate)
            && (c.receiver - cost >= b.receiver <==> accepted || cost == 0)
  {
    hide Budget, Fee;
    BudgetIsCovered(b, amt, rate, accepted, charged);
  }

  /** It is refused only for another denomination, or for costing more than the budget. */
  lemma ForwardRefuses(d: Remote, denom: bytes, budget: nat)
    ensures Forward(d, denom, budget).None? <==>
              d.tokenDenom != denom || d.feeDenom != denom || d.amount > budget || d.maxFee > budget - d.amount
  {
  }

  /** After a refused delivery a forward can take all of the budget out of the receiver's own funds. */
  lemma RefusedDeliveryIsForwarded(b: Ledger, amt: nat, rate: nat, charged: bool, denom: bytes)
    requires 0 < amt && ValidRate(rate)
    ensures Budget(amt, rate) > 0
    ensures var c, d := Deliver(b, amt, rate, false, charged), Remote(denom, denom, Budget(amt, rate), 0);
            Forward(d, denom, Budget(amt, rate)).Some?
              && c.receiver - Forward(d, denom, Budget(amt, rate)).value == b.receiver - Budget(amt, rate)
  {
    hide Budget, Fee;
    BudgetIsCovered(b, amt, rate, false, charged);
  }
}
