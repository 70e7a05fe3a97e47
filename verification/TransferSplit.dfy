/** How a transfer's amount is split over the sender's sources. */
module TransferSplit {
  import opened Prelude
  import opened Sums
  import opened Rollup
  import opened RollupHistory

  /** Half a unit in the ninth decimal place. */
  const HALF: real := 0.5 / UNIT

  /** Half a unit in the ninth decimal place for each of `n` sources. */
  function Slack(n: nat): (r: real) {
    n as real / 2000000000.0
  }

  lemma SlackIsTimes(n: nat)
    ensures Slack(n) == Times(n, HALF)
  {
    TimesIsProduct(n, HALF);
    assert HALF == 1.0 / 2000000000.0;
  }

  lemma RoundIsNear(x: real)
    requires x >= 0.0
    ensures Near(Round9(x), x, HALF)
  {
    var scaled := x * UNIT;
    var n := (scaled + 0.5).Floor as real;
    assert scaled - 0.5 < n <= scaled + 0.5;
    assert n / UNIT <= (scaled + 0.5) / UNIT && n / UNIT >= (scaled - 0.5) / UNIT;
    assert scaled / UNIT == x;
  }

  /** A whole number of units in the ninth decimal place. */
  ghost predicate Whole(x: real) {
    exists n :: x == Units(n)
  }

  function Units(n: int): (r: real) {
    n as real / UNIT
  }

  /** Rounding gives the nearest whole number of units, and the greater one in the middle between two. */
  lemma RoundIsNearestUnit(x: real)
    requires x >= 0.0
    ensures Whole(Round9(x)) && -HALF <= x - Round9(x) < HALF
  {
    var scaled := x * UNIT;
    var n := (scaled + 0.5).Floor;
    assert scaled - 0.5 < n as real <= scaled + 0.5;
    assert Round9(x) == Units(n);
    assert scaled / UNIT == x;
    assert n as real / UNIT <= (scaled + 0.5) / UNIT;
    assert n as real / UNIT > (scaled - 0.5) / UNIT;
  }

  /** Below zero it mirrors that. */
  lemma RoundMirrors(x: real)
    requires x > 0.0
    ensures Round9(-x) == -Round9(x)
  {
  }

  lemma WholeRound(x: real)
    ensures Whole(Round9(x))
  {
    if x >= 0.0 {
      RoundIsNearestUnit(x);
    } else {
      RoundMirrors(-x);
      RoundIsNearestUnit(-x);
      var n :| Round9(-x) == Units(n);
      assert Round9(x) == Units(-n);
    }
  }

  lemma WholeSum(x: real, y: real)
    requires Whole(x) && Whole(y)
    ensures Whole(x + y)
  {
    var n :| x == Units(n);
    var m :| y == Units(m);
    assert x + y == Units(n + m);
  }

  lemma RoundZero()
    ensures Round9(0.0) == 0.0
  {
    assert 0.0 * UNIT + 0.5 == 0.5;
    assert (0.5).Floor == 0;
  }

  lemma TimesOne(x: real)
    ensures x * (1.0 / 1.0) == x
  {
  }

  lemma TimesZero(x: real)
    ensures x * 0.0 == 0.0 && 0.0 * x == 0.0
  {
  }

  lemma DivTimes(amount: real, total: real)
    requires total > 0.0
    ensures (amount / total) * total == amount
  {
  }

  lemma ProportionNonNegative(amount: real, total: real, fund: real)
    requires total > 0.0 && amount >= 0.0 && fund >= 0.0
    ensures Proportion(amount, total, fund) >= 0.0
  {
    assert amount / total >= 0.0;
  }

  /** The distance weight changes nothing for a source held directly, or for a part of 0. */
  lemma WeightIsOne(part: real, hops: nat)
    requires part == 0.0 || hops == 0
    ensures Weighted(part, hops) == part
  {
    if part == 0.0 {
      TimesZero(1.0 / (hops + 1) as real);
    } else {
      assert (hops + 1) as real == 1.0;
      TimesOne(part);
    }
  }

  lemma ProportionOfZero(amount: real, total: real)
    requires total > 0.0
    ensures Proportion(amount, total, 0.0) == 0.0
  {
    TimesZero(amount / total);
  }

  /** So its share is the plain proportion, rounded, and a source without funds gets nothing. */
  lemma DirectShare(amount: real, total: real, src: Row, plain: real)
    requires total > 0.0 && amount >= 0.0 && src.evmFund >= 0.0 && plain == Proportion(amount, total, src.evmFund)
    requires src.evmFund > 0.0 ==> src.hops == 0
    ensures Share(amount, total, src) == Round9(plain)
    ensures src.evmFund == 0.0 ==> Round9(plain) == plain
    ensures Near(Round9(plain), plain, HALF)
  {
    ProportionOfZero(amount, total);
    WeightIsOne(plain, src.hops);
    ProportionNonNegative(amount, total, src.evmFund);
    RoundProperties(plain);
  }

  lemma RoundProperties(x: real)
    requires x >= 0.0
    ensures Near(Round9(x), x, HALF)
    ensures x == 0.0 ==> Round9(x) == x
  {
    RoundIsNear(x);
    RoundZero();
  }

  /** What a transfer adds to the receiver's credit, source by source. */
  ghost function Credited(rows: Table, op: Op): (r: string -> real) {
    e => CreditOf(Apply(rows, op), Key(op.to, op.asset, e)) - CreditOf(rows, Key(op.to, op.asset, e))
  }

  ghost function FundedSources(rows: Table, addr: string, asset: string): (r: set<string>) {
    set e | e in Sources(rows, addr, asset) && FundOf(rows, Key(addr, asset, e)) > 0.0
  }

  lemma CreditedShare(rows: Table, op: Op, e: string)
    requires Funded(rows, op) && Key(op.from, op.asset, e) in rows
    ensures Credited(rows, op)(e) == Share(op.amount, Total(rows, op.from, op.asset), rows[Key(op.from, op.asset, e)])
  {
    var k := Key(op.to, op.asset, e);
    ApplyAt(rows, op, k);
    var share := Share(op.amount, Total(rows, op.from, op.asset), rows[Key(op.from, op.asset, e)]);
    assert Get(Apply(rows, op), k).value.transferFund == CreditOf(rows, k) + share;
  }

  ghost function Plain(rows: Table, op: Op): (r: string -> real)
    requires Funded(rows, op)
  {
    e => Proportion(op.amount, Total(rows, op.from, op.asset), FundOf(rows, Key(op.from, op.asset, e)))
  }

  /** The plain proportions add up to the amount. */
  lemma PlainAddsUp(rows: Table, op: Op)
    requires Funded(rows, op)
    ensures Sum(Sources(rows, op.from, op.asset), Plain(rows, op)) == op.amount
  {
    var sources, total := Sources(rows, op.from, op.asset), Total(rows, op.from, op.asset);
    var funds, rate := Funds(rows, op.from, op.asset), op.amount / total;
    SumScale(sources, funds, rate);
    SumCongruent(sources, Plain(rows, op), (e: string) => rate * funds(e));
    DivTimes(op.amount, total);
  }

  lemma CreditedIsPlain(rows: Table, op: Op, e: string)
    requires DirectFunds(rows) && Funded(rows, op) && op.amount >= 0.0 && e in Sources(rows, op.from, op.asset)
    ensures Credited(rows, op)(e) == Round9(Plain(rows, op)(e))
    ensures Near(Credited(rows, op)(e), Plain(rows, op)(e), HALF)
    ensures e !in FundedSources(rows, op.from, op.asset) ==> Credited(rows, op)(e) == Plain(rows, op)(e)
  {
    CreditedShare(rows, op, e);
    DirectShare(op.amount, Total(rows, op.from, op.asset), rows[Key(op.from, op.asset, e)], Plain(rows, op)(e));
  }

  lemma SharesAreNear(rows: Table, op: Op)
    requires DirectFunds(rows) && Funded(rows, op) && op.amount >= 0.0
    ensures forall e :: e in Sources(rows, op.from, op.asset) ==> Credited(rows, op)(e) == Round9(Plain(rows, op)(e))
    ensures Near(Sum(Sources(rows, op.from, op.asset), Credited(rows, op)), op.amount,
                 Times(|FundedSources(rows, op.from, op.asset)|, HALF))
  {
    var sources, funded := Sources(rows, op.from, op.asset), FundedSources(rows, op.from, op.asset);
    forall e | e in sources
      ensures Credited(rows, op)(e) == Round9(Plain(rows, op)(e))
      ensures Near(Credited(rows, op)(e), Plain(rows, op)(e), HALF)
      ensures e !in funded ==> Credited(rows, op)(e) == Plain(rows, op)(e)
    {
      CreditedIsPlain(rows, op, e);
    }
    SumNear(sources, funded, Credited(rows, op), Plain(rows, op), HALF);
    PlainAddsUp(rows, op);
  }

  /** In any table where bridge funds are held directly, a transfer by a sender with a positive
      total credits the receiver the whole amount, up to half of 10^-9 for each source that has
      funds: each source gets its documented plain proportion, rounded. */
  lemma TransferCreditsAmount(rows: Table, op: Op)
    requires DirectFunds(rows) && Funded(rows, op) && op.amount >= 0.0
    ensures forall e :: e in Sources(rows, op.from, op.asset) ==> Credited(rows, op)(e) == Round9(Plain(rows, op)(e))
    ensures Near(Sum(Sources(rows, op.from, op.asset), Credited(rows, op)), op.amount,
                 Slack(|FundedSources(rows, op.from, op.asset)|))
  {
    SharesAreNear(rows, op);
    SlackIsTimes(|FundedSources(rows, op.from, op.asset)|);
  }

  /** So it is in every reachable table. */
  lemma EveryTransferCreditsItsAmount(ops: seq<Op>, ts: seq<Table>, n: nat)
    requires IsTrace(ops, ts) && n < |ops| && Unsigned(ops) && Funded(ts[n], ops[n])
    ensures var op := ops[n];
            Near(Sum(Sources(ts[n], op.from, op.asset), Credited(ts[n], op)), op.amount,
                 Slack(|FundedSources(ts[n], op.from, op.asset)|))
  {
    FundedRowsAreDirect(ops, ts, n);
    TransferCreditsAmount(ts[n], ops[n]);
  }
}
