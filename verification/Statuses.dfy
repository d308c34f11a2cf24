/** What the reported status says about the trades and the book. */
module Statuses {
  import opened Base
  import opened BookSpec
  import opened MatchSpec
  import opened PriceTime

  predicate Rejected(s: ExecutionStatus) {
    s.RejectedRisk? || s.RejectedInvalid?
  }

  /** A sweep that fills nothing changes nothing. */
  lemma NoFillsNoChange(b: Book, a: OrderAction, left: u32, next: u64)
    requires WellFormed(b) && Sweep(b, a, left, next).fills == []
    ensures Sweep(b, a, left, next) == Swept(b, [], left, next)
  {
    hide Core, Lively, Sweep, Stuck;
    if Stuck(b, a, left) {
      SweepStuck(b, a, left, next);
    } else {
      SweepStep(b, a, left, next);
      assert false;
    }
  }

  /** What a sweep fills and what it leaves make up the quantity, and every fill is positive. */
  lemma SweepAccounts(b: Book, a: OrderAction, left: u32, next: u64)
    requires WellFormed(b)
    ensures var s := Sweep(b, a, left, next);
            SumFills(s.fills) + s.left == left && (s.fills != [] ==> SumFills(s.fills) > 0)
  {
    hide Core, Lively, Sweep, Stuck, Line;
    SweepServesLine(b, a, left, next);
  }

  /** Filled and partially filled mean what they say, a rejection changes nothing, acceptance means no trade. */
  lemma StatusTells(b: Book, a: OrderAction, riskOk: bool, next: u64)
    requires WellFormed(b)
    ensures var o := Match(b, a, riskOk, next);
            && (o.status == Filled <==> a.qty > 0 && SumFills(o.fills) == a.qty)
            && (o.status == PartiallyFilled <==> 0 < SumFills(o.fills) < a.qty)
            && (o.status == RejectedRisk <==> !riskOk)
            && (o.status == RejectedInvalid <==> riskOk && o.fills == [] && (a.kind == IOC || a.kind == FOK))
            && (o.status == Accepted <==> riskOk && o.fills == [] && (a.kind == Limit || a.kind == Market))
            && (Rejected(o.status) ==> o.book == b && o.fills == [] && o.nextId == next)
            && (a.kind == Market && o.fills == [] ==> o.book == b)
  {
    hide Core, Lively, Sweep, ScanFinds, Add;
    SweepAccounts(b, a, a.qty, next);
    if Sweep(b, a, a.qty, next).fills == [] {
      NoFillsNoChange(b, a, a.qty, next);
    }
  }
}
