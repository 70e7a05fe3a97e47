/** What the transferred credit of rows and addresses adds up to over a whole run. */
module TransferTotals {
  import opened Prelude
  import opened Sums
  import opened Rollup
  import opened RollupHistory
  import opened TransferSplit

  /** The sum over the first `n` operations of what each contributes to the table it meets. */
  ghost function TraceSum(ops: seq<Op>, ts: seq<Table>, n: nat, part: (Table, Op) -> real): (r: real)
    requires n <= |ops| && |ts| == |ops| + 1
  {
    if n == 0 then 0.0 else TraceSum(ops, ts, n - 1, part) + part(ts[n - 1], ops[n - 1])
  }

  // ---------------------------------------------------------------- one row

  /** The share of an operation that goes to row `k`. */
  ghost function ShareInto(k: Key): (r: (Table, Op) -> real) {
    (rows: Table, op: Op) =>
      if op.Transfer? && Touches(rows, op, k) then Share(op.amount, Total(rows, op.from, op.asset), rows[Key(op.from, op.asset, k.evm)])
      else 0.0
  }

  lemma CreditStep(rows: Table, op: Op, k: Key)
    ensures CreditOf(Apply(rows, op), k) == CreditOf(rows, k) + ShareInto(k)(rows, op)
  {
    ApplyAt(rows, op, k);
    assert CreditOf(Apply(rows, op), k) == if Get(Apply(rows, op), k).Some? then Get(Apply(rows, op), k).value.transferFund else 0.0;
  }

  /** What changes by `part` at every operation has changed by the sum of it. */
  lemma {:induction false} AddsUp(ops: seq<Op>, ts: seq<Table>, n: nat, value: Table -> real, part: (Table, Op) -> real)
    requires n <= |ops| && |ts| == |ops| + 1
    requires forall i :: 0 <= i < n ==> value(ts[i + 1]) == value(ts[i]) + part(ts[i], ops[i])
    ensures value(ts[n]) == value(ts[0]) + TraceSum(ops, ts, n, part)
    decreases n
  {
    if n > 0 {
      AddsUp(ops, ts, n - 1, value, part);
    }
  }

  /** A row's transferred credit is exactly the sum of the shares that went to it. */
  lemma CreditIsShares(ops: seq<Op>, ts: seq<Table>, n: nat, k: Key)
    requires IsTrace(ops, ts) && n <= |ops|
    ensures CreditOf(ts[n], k) == TraceSum(ops, ts, n, ShareInto(k))
  {
    var value := (rows: Table) => CreditOf(rows, k);
    forall i | 0 <= i < n
      ensures value(ts[i + 1]) == value(ts[i]) + ShareInto(k)(ts[i], ops[i])
    {
      assert Step(i);
      CreditStep(ts[i], ops[i], k);
    }
    AddsUp(ops, ts, n, value, ShareInto(k));
  }

  lemma ShareIsWhole(rows: Table, op: Op, k: Key)
    ensures Whole(ShareInto(k)(rows, op))
  {
    if op.Transfer? && Touches(rows, op, k) {
      var total, src := Total(rows, op.from, op.asset), rows[Key(op.from, op.asset, k.evm)];
      WholeRound(Weighted(Proportion(op.amount, total, src.evmFund), src.hops));
    } else {
      assert 0.0 == Units(0);
    }
  }

  /** In every reachable table the transferred credit of every row is a whole number of units in the ninth
      decimal place. */
  lemma {:induction false} CreditsAreWhole(ops: seq<Op>, ts: seq<Table>, n: nat, k: Key)
    requires IsTrace(ops, ts) && n <= |ops|
    ensures Whole(CreditOf(ts[n], k))
    decreases n
  {
    if n == 0 {
      assert 0.0 == Units(0);
    } else {
      CreditsAreWhole(ops, ts, n - 1, k);
      assert Step(n - 1);
      CreditStep(ts[n - 1], ops[n - 1], k);
      ShareIsWhole(ts[n - 1], ops[n - 1], k);
      WholeSum(CreditOf(ts[n - 1], k), ShareInto(k)(ts[n - 1], ops[n - 1]));
    }
  }

  // ---------------------------------------------------------------- one address

  function Credits(rows: Table, addr: string, asset: string): (r: string -> real) {
    e => CreditOf(rows, Key(addr, asset, e))
  }

  /** The total credit of an address for an asset. */
  ghost function TotalCredit(rows: Table, addr: string, asset: string): (r: real) {
    Sum(Sources(rows, addr, asset), Credits(rows, addr, asset))
  }

  /** A transfer into this address by a sender with a positive total. */
  ghost predicate Pays(rows: Table, op: Op, addr: string, asset: string) {
    Funded(rows, op) && op.to == addr && op.asset == asset
  }

  lemma SourcesAfter(rows: Table, op: Op, addr: string, asset: string)
    ensures Sources(rows, addr, asset) <= Sources(Apply(rows, op), addr, asset)
    ensures Pays(rows, op, addr, asset) ==>
              Sources(Apply(rows, op), addr, asset) == Sources(rows, addr, asset) + Sources(rows, op.from, asset)
  {
    forall e
      ensures Get(Apply(rows, op), Key(addr, asset, e)) == RowAfter(rows, op, Key(addr, asset, e))
      ensures e in Sources(rows, addr, asset) <==> Get(rows, Key(addr, asset, e)).Some?
      ensures e in Sources(Apply(rows, op), addr, asset) <==> Get(Apply(rows, op), Key(addr, asset, e)).Some?
    {
      ApplyAt(rows, op, Key(addr, asset, e));
    }
  }

  lemma UnpaidStays(rows: Table, op: Op, addr: string, asset: string)
    requires !Pays(rows, op, addr, asset)
    ensures TotalCredit(Apply(rows, op), addr, asset) == TotalCredit(rows, addr, asset)
  {
    var was, now := Sources(rows, addr, asset), Sources(Apply(rows, op), addr, asset);
    var f, g := Credits(rows, addr, asset), Credits(Apply(rows, op), addr, asset);
    SourcesAfter(rows, op, addr, asset);
    forall e
      ensures g(e) == f(e)
    {
      CreditStep(rows, op, Key(addr, asset, e));
    }
    SumWiden(was, now, g);
    SumCongruent(was, f, g);
  }

  lemma PaidAdds(rows: Table, op: Op, addr: string, asset: string)
    requires Pays(rows, op, addr, asset)
    ensures TotalCredit(Apply(rows, op), addr, asset) ==
            TotalCredit(rows, addr, asset) + Sum(Sources(rows, op.from, op.asset), Credited(rows, op))
  {
    var was, src, now := Sources(rows, addr, asset), Sources(rows, op.from, asset), Sources(Apply(rows, op), addr, asset);
    var f, g, c := Credits(rows, addr, asset), Credits(Apply(rows, op), addr, asset), Credited(rows, op);
    SourcesAfter(rows, op, addr, asset);
    forall e | e !in src
      ensures c(e) == 0.0
    {
      CreditStep(rows, op, Key(addr, asset, e));
    }
    SumUnion(was, src, f, c, g);
  }

  /** The amount of a paying transfer. */
  ghost function PaidInto(addr: string, asset: string): (r: (Table, Op) -> real) {
    (rows: Table, op: Op) => if Pays(rows, op, addr, asset) then op.amount else 0.0
  }

  /** How many funded sources a paying transfer is split over. */
  ghost function SplitOver(addr: string, asset: string): (r: (Table, Op) -> nat) {
    (rows: Table, op: Op) => if Pays(rows, op, addr, asset) then |FundedSources(rows, op.from, asset)| else 0
  }

  ghost function TraceCount(ops: seq<Op>, ts: seq<Table>, n: nat, count: (Table, Op) -> nat): (r: nat)
    requires n <= |ops| && |ts| == |ops| + 1
  {
    if n == 0 then 0 else TraceCount(ops, ts, n - 1, count) + count(ts[n - 1], ops[n - 1])
  }

  /** What changes by about `part` at every operation has changed by about the sum of it. */
  lemma {:induction false} NearlyAddsUp(ops: seq<Op>, ts: seq<Table>, n: nat, value: Table -> real,
                                        part: (Table, Op) -> real, count: (Table, Op) -> nat)
    requires n <= |ops| && |ts| == |ops| + 1
    requires forall i :: 0 <= i < n ==> Near(value(ts[i + 1]) - value(ts[i]), part(ts[i], ops[i]), Slack(count(ts[i], ops[i])))
    ensures Near(value(ts[n]) - value(ts[0]), TraceSum(ops, ts, n, part), Slack(TraceCount(ops, ts, n, count)))
    decreases n
  {
    if n > 0 {
      NearlyAddsUp(ops, ts, n - 1, value, part, count);
    }
  }

  lemma StepIsPaid(ops: seq<Op>, ts: seq<Table>, j: nat, addr: string, asset: string)
    requires IsTrace(ops, ts) && j < |ops| && Unsigned(ops)
    ensures Near(TotalCredit(ts[j + 1], addr, asset) - TotalCredit(ts[j], addr, asset), PaidInto(addr, asset)(ts[j], ops[j]),
                 Slack(SplitOver(addr, asset)(ts[j], ops[j])))
  {
    assert Step(j);
    if Pays(ts[j], ops[j], addr, asset) {
      PaidAdds(ts[j], ops[j], addr, asset);
      EveryTransferCreditsItsAmount(ops, ts, j);
    } else {
      UnpaidStays(ts[j], ops[j], addr, asset);
    }
  }

  /** Over every run the total credit of an address is the sum of the amounts of the funded transfers
      into it, up to half of 10^-9 for each funded source that each of them was split over. */
  lemma CreditIsTransfers(ops: seq<Op>, ts: seq<Table>, n: nat, addr: string, asset: string)
    requires IsTrace(ops, ts) && n <= |ops| && Unsigned(ops)
    ensures Near(TotalCredit(ts[n], addr, asset), TraceSum(ops, ts, n, PaidInto(addr, asset)),
                 Slack(TraceCount(ops, ts, n, SplitOver(addr, asset))))
  {
    var value := (rows: Table) => TotalCredit(rows, addr, asset);
    forall i | 0 <= i < n
      ensures Near(value(ts[i + 1]) - value(ts[i]), PaidInto(addr, asset)(ts[i], ops[i]), Slack(SplitOver(addr, asset)(ts[i], ops[i])))
    {
      StepIsPaid(ops, ts, i, addr, asset);
    }
    NearlyAddsUp(ops, ts, n, value, PaidInto(addr, asset), SplitOver(addr, asset));
    assert Sources(map[], addr, asset) == {};
  }
}
