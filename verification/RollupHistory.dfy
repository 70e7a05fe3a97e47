/** What the rollup rows mean in terms of the operations that produced them. */
module RollupHistory {
  import opened Prelude
  import opened Sums
  import opened SeenOrds
  import opened Rollup

  /** Names a step of a trace, so that a proof looks into the steps it names and no others. */
  ghost predicate Step(i: int) { true }

  /** The tables a run goes through: `ts[i]` is the table before operation `i`. */
  ghost predicate IsTrace(ops: seq<Op>, ts: seq<Table>) {
    && |ts| == |ops| + 1
    && ts[0] == map[]
    && forall i {:trigger Step(i)} :: Step(i) && 0 <= i < |ops| ==> ts[i + 1] == Apply(ts[i], ops[i])
  }

  /** What an operation does to one row, leaving aside the transferred share. */
  ghost predicate Effect(rows: Table, op: Op, k: Key, after: Option<Row>) {
    if !Touches(rows, op, k) then after == Get(rows, k)
    else
      && after.Some?
      && after.value.firstSeen == (if k in rows then Least(rows[k].firstSeen, op.Ord()) else op.Ord())
      && after.value.lastSeen == (if k in rows then Greatest(rows[k].lastSeen, op.Ord()) else op.Ord())
      && match op
         case Seed(_, _, _, amount, _, _) =>
           after.value.hops == 0 && after.value.evmFund == FundOf(rows, k) + amount
         case Transfer(from, _, asset, _, _, _) =>
           var far := rows[Key(from, asset, k.evm)].hops + 1;
           && after.value.hops == (if k in rows && rows[k].hops <= far then rows[k].hops else far)
           && after.value.evmFund == FundOf(rows, k)
  }

  lemma StepAt(ops: seq<Op>, ts: seq<Table>, i: nat, k: Key)
    requires IsTrace(ops, ts) && i < |ops|
    ensures Effect(ts[i], ops[i], k, Get(ts[i + 1], k))
  {
    assert Step(i);
    ApplyAt(ts[i], ops[i], k);
  }

  // ---------------------------------------------------------------- hops are shortest paths

  /** A time-respecting chain among the first `n` operations: the indices of a seed of `k.evm` and
      of the transfers that carried it on to `k.addr`, one after the other, each by a sender with a
      positive total at that moment.  Its length is its number of transfers. */
  ghost predicate Chain(ops: seq<Op>, ts: seq<Table>, n: nat, c: seq<nat>, k: Key)
    requires IsTrace(ops, ts) && n <= |ops|
    decreases |c|
  {
    && c != []
    && var j, rest := c[|c| - 1], c[..|c| - 1];
    && j < n && ops[j].to == k.addr && ops[j].asset == k.asset
    && if rest == [] then ops[j].Seed? && ops[j].evm == k.evm
       else Funded(ts[j], ops[j]) && Chain(ops, ts, j, rest, Key(ops[j].from, k.asset, k.evm))
  }

  ghost predicate WithinHops(rows: Table, k: Key, hops: nat) {
    k in rows && rows[k].hops <= hops
  }

  /** Rows are never removed and their distance never grows. */
  lemma {:induction false} HopsOnlyDrop(ops: seq<Op>, ts: seq<Table>, m: nat, n: nat, k: Key, hops: nat)
    requires IsTrace(ops, ts) && m <= n <= |ops| && WithinHops(ts[m], k, hops)
    ensures WithinHops(ts[n], k, hops)
    decreases n
  {
    if m < n {
      HopsOnlyDrop(ops, ts, m, n - 1, k, hops);
      StepAt(ops, ts, n - 1, k);
      assert Get(ts[n], k).Some?;
    }
  }

  /** No chain is shorter than the recorded distance. */
  lemma {:induction false} NoChainIsShorter(ops: seq<Op>, ts: seq<Table>, n: nat, c: seq<nat>, k: Key)
    requires IsTrace(ops, ts) && n <= |ops| && Chain(ops, ts, n, c, k)
    ensures WithinHops(ts[n], k, |c| - 1)
    decreases |c|
  {
    var j, rest := c[|c| - 1], c[..|c| - 1];
    if rest != [] {
      NoChainIsShorter(ops, ts, j, rest, Key(ops[j].from, k.asset, k.evm));
    }
    StepAt(ops, ts, j, k);
    assert Get(ts[j + 1], k).Some?;
    HopsOnlyDrop(ops, ts, j + 1, n, k, |c| - 1);
  }

  /** Some chain has exactly the recorded distance. */
  lemma {:induction false} SomeChainIsAsShort(ops: seq<Op>, ts: seq<Table>, n: nat, k: Key) returns (c: seq<nat>)
    requires IsTrace(ops, ts) && n <= |ops| && k in ts[n]
    ensures Chain(ops, ts, n, c, k) && |c| - 1 == ts[n][k].hops
    decreases n
  {
    var j := n - 1;
    StepAt(ops, ts, j, k);
    assert Get(ts[n], k) == Some(ts[n][k]);
    if Touches(ts[j], ops[j], k) && ops[j].Seed? {
      c := [j];
    } else if k in ts[j] && ts[j][k].hops == ts[n][k].hops {
      c := SomeChainIsAsShort(ops, ts, j, k);
    } else {
      var rest := SomeChainIsAsShort(ops, ts, j, Key(ops[j].from, ops[j].asset, k.evm));
      c := rest + [j];
      assert c[..|c| - 1] == rest;
    }
  }

  ghost predicate HasChain(ops: seq<Op>, ts: seq<Table>, n: nat, k: Key, hops: nat)
    requires IsTrace(ops, ts) && n <= |ops|
  {
    exists c :: Chain(ops, ts, n, c, k) && |c| - 1 == hops
  }

  /** In every reachable table a row exists exactly when a chain does, and `hops` is the length of
      the shortest one. */
  lemma HopsAreShortestChains(ops: seq<Op>, ts: seq<Table>, n: nat, k: Key)
    requires IsTrace(ops, ts) && n <= |ops|
    ensures k in ts[n] <==> exists hops: nat :: HasChain(ops, ts, n, k, hops)
    ensures k in ts[n] ==>
              && HasChain(ops, ts, n, k, ts[n][k].hops)
              && forall hops: nat :: HasChain(ops, ts, n, k, hops) ==> ts[n][k].hops <= hops
  {
    if k in ts[n] {
      var c := SomeChainIsAsShort(ops, ts, n, k);
      assert HasChain(ops, ts, n, k, ts[n][k].hops);
    }
    forall hops: nat | HasChain(ops, ts, n, k, hops)
      ensures WithinHops(ts[n], k, hops)
    {
      var c :| Chain(ops, ts, n, c, k) && |c| - 1 == hops;
      NoChainIsShorter(ops, ts, n, c, k);
    }
  }

  // ---------------------------------------------------------------- first and last seen

  /** Among the first `n` operations, operation `i` wrote the row `k`. */
  ghost predicate TouchedBy(ops: seq<Op>, ts: seq<Table>, n: nat, i: int, k: Key)
    requires |ts| == |ops| + 1 && n <= |ops|
  {
    0 <= i < n && Touches(ts[i], ops[i], k)
  }

  /** A row that is not there was never written. */
  lemma {:induction false} UnseenUntouched(ops: seq<Op>, ts: seq<Table>, n: nat, k: Key)
    requires IsTrace(ops, ts) && n <= |ops| && k !in ts[n]
    ensures forall i :: !TouchedBy(ops, ts, n, i, k)
    decreases n
  {
    if n > 0 {
      StepAt(ops, ts, n - 1, k);
      assert Get(ts[n], k).None?;
      UnseenUntouched(ops, ts, n - 1, k);
      forall i | 0 <= i < n
        ensures !TouchedBy(ops, ts, n, i, k)
      {
        assert !TouchedBy(ops, ts, n - 1, i, k);
      }
    }
  }

  /** What one operation does to the two columns of a row that exists after it. */
  lemma SeenAfter(ops: seq<Op>, ts: seq<Table>, j: nat, k: Key)
    requires IsTrace(ops, ts) && j < |ops| && k in ts[j + 1]
    ensures var now, o := ts[j + 1][k], ops[j].Ord();
            if k !in ts[j] then Touches(ts[j], ops[j], k) && now.firstSeen == o && now.lastSeen == o
            else if Touches(ts[j], ops[j], k) then
              && now.firstSeen == (if o < ts[j][k].firstSeen then o else ts[j][k].firstSeen)
              && now.lastSeen == (if o > ts[j][k].lastSeen then o else ts[j][k].lastSeen)
            else now.firstSeen == ts[j][k].firstSeen && now.lastSeen == ts[j][k].lastSeen
  {
    StepAt(ops, ts, j, k);
    assert Get(ts[j + 1], k) == Some(ts[j + 1][k]);
  }

  lemma TouchedNext(ops: seq<Op>, ts: seq<Table>, n: nat, k: Key)
    requires |ts| == |ops| + 1 && 0 < n <= |ops|
    ensures forall i :: TouchedBy(ops, ts, n, i, k) <==>
              TouchedBy(ops, ts, n - 1, i, k) || (i == n - 1 && Touches(ts[n - 1], ops[n - 1], k))
  {
  }

  /** `firstSeen` is the least order number among the operations that wrote the row and `lastSeen`
      the greatest; `first` and `last` are two of those operations. */
  lemma {:induction false} SeenIsEarliestAndLatest(ops: seq<Op>, ts: seq<Table>, n: nat, k: Key) returns (first: nat, last: nat)
    requires IsTrace(ops, ts) && n <= |ops| && k in ts[n]
    ensures TouchedBy(ops, ts, n, first, k) && ops[first].Ord() == ts[n][k].firstSeen
    ensures TouchedBy(ops, ts, n, last, k) && ops[last].Ord() == ts[n][k].lastSeen
    ensures forall i :: TouchedBy(ops, ts, n, i, k) ==> ts[n][k].firstSeen <= ops[i].Ord() <= ts[n][k].lastSeen
    decreases n
  {
    var j := n - 1;
    SeenAfter(ops, ts, j, k);
    TouchedNext(ops, ts, n, k);
    if k in ts[j] {
      first, last := SeenIsEarliestAndLatest(ops, ts, j, k);
      if Touches(ts[j], ops[j], k) {
        first := if ops[j].Ord() < ts[j][k].firstSeen then j else first;
        last := if ops[j].Ord() > ts[j][k].lastSeen then j else last;
      }
    } else {
      UnseenUntouched(ops, ts, j, k);
      first, last := j, j;
    }
  }

  ghost predicate NotAfter(a: Op, b: Op) {
    Before(a.version, a.index, b.version, b.index)
  }

  lemma OrdKeepsOrder(a: Op, b: Op)
    requires InRange(a.version, a.index) && InRange(b.version, b.index)
    ensures a.Ord() <= b.Ord() <==> NotAfter(a, b)
    ensures Decode(a.Ord()) == (a.version, a.index)
  {
    SeenOrdKeepsOrder(a.version, a.index, b.version, b.index);
    SeenOrdDecodes(a.version, a.index);
  }

  /** Read back, they are the first and the last (version, event index) that touched the row. */
  lemma SeenDecodes(ops: seq<Op>, ts: seq<Table>, n: nat, k: Key) returns (first: nat, last: nat)
    requires IsTrace(ops, ts) && n <= |ops| && k in ts[n]
    requires forall i :: 0 <= i < n ==> InRange(ops[i].version, ops[i].index)
    ensures TouchedBy(ops, ts, n, first, k) && Decode(ts[n][k].firstSeen) == (ops[first].version, ops[first].index)
    ensures TouchedBy(ops, ts, n, last, k) && Decode(ts[n][k].lastSeen) == (ops[last].version, ops[last].index)
    ensures forall i :: TouchedBy(ops, ts, n, i, k) ==> NotAfter(ops[first], ops[i]) && NotAfter(ops[i], ops[last])
  {
    first, last := SeenIsEarliestAndLatest(ops, ts, n, k);
    OrdKeepsOrder(ops[first], ops[first]);
    OrdKeepsOrder(ops[last], ops[last]);
    forall i | TouchedBy(ops, ts, n, i, k)
      ensures NotAfter(ops[first], ops[i]) && NotAfter(ops[i], ops[last])
    {
      OrdKeepsOrder(ops[first], ops[i]);
      OrdKeepsOrder(ops[i], ops[last]);
    }
  }

  // ---------------------------------------------------------------- bridge funds

  /** The sum over the first `n` operations of what each contributes. */
  ghost function OpSum(ops: seq<Op>, n: nat, part: Op -> real): (r: real)
    requires n <= |ops|
  {
    if n == 0 then 0.0 else OpSum(ops, n - 1, part) + part(ops[n - 1])
  }

  /** The amount an operation seeds at row `k`. */
  function SeedAt(k: Key): (r: Op -> real) {
    (op: Op) => if op.Seed? && Key(op.to, op.asset, op.evm) == k then op.amount else 0.0
  }

  /** The amount an operation seeds into an address for an asset, whatever the source. */
  function SeedInto(addr: string, asset: string): (r: Op -> real) {
    (op: Op) => if op.Seed? && op.to == addr && op.asset == asset then op.amount else 0.0
  }

  /** A row's bridge fund is exactly what was seeded into it: transfers neither add nor remove. */
  lemma {:induction false} FundIsSeeded(ops: seq<Op>, ts: seq<Table>, n: nat, k: Key)
    requires IsTrace(ops, ts) && n <= |ops|
    ensures FundOf(ts[n], k) == OpSum(ops, n, SeedAt(k))
    decreases n
  {
    if n > 0 {
      FundIsSeeded(ops, ts, n - 1, k);
      StepAt(ops, ts, n - 1, k);
      assert FundOf(ts[n], k) == if Get(ts[n], k).Some? then Get(ts[n], k).value.evmFund else 0.0;
    }
  }

  lemma TotalAfter(rows: Table, op: Op, addr: string, asset: string)
    ensures Total(Apply(rows, op), addr, asset) ==
            Total(rows, addr, asset) + SeedInto(addr, asset)(op)
  {
    var rows' := Apply(rows, op);
    var was, now := Sources(rows, addr, asset), Sources(rows', addr, asset);
    var f, g := Funds(rows, addr, asset), Funds(rows', addr, asset);
    forall e
      ensures Get(rows', Key(addr, asset, e)) == RowAfter(rows, op, Key(addr, asset, e))
      ensures e in was <==> Get(rows, Key(addr, asset, e)).Some?
      ensures e in now <==> Get(rows', Key(addr, asset, e)).Some?
    {
      ApplyAt(rows, op, Key(addr, asset, e));
    }
    if op.Seed? && op.to == addr && op.asset == asset {
      SeedTotal(rows, op);
    } else {
      SumWiden(was, now, g);
      SumCongruent(was, f, g);
    }
  }

  lemma SeedTotal(rows: Table, op: Op)
    requires op.Seed?
    ensures Total(Apply(rows, op), op.to, op.asset) == Total(rows, op.to, op.asset) + op.amount
  {
    var rows' := Apply(rows, op);
    var was, now := Sources(rows, op.to, op.asset), Sources(rows', op.to, op.asset);
    var f, g := Funds(rows, op.to, op.asset), Funds(rows', op.to, op.asset);
    assert Key(op.to, op.asset, op.evm) in rows';
    assert now == was + {op.evm} by {
      assert forall e :: Key(op.to, op.asset, e) in rows' <==> Key(op.to, op.asset, e) in rows || e == op.evm;
    }
    SumPick(now, op.evm, g);
    SumCongruent(now - {op.evm}, f, g);
    if op.evm in was {
      SumPick(was, op.evm, f);
    }
    assert now - {op.evm} == was - {op.evm};
  }

  /** Conservation: in every reachable table the total bridge fund of an address is the sum of what
      was seeded into it. */
  lemma {:induction false} TotalIsSeeded(ops: seq<Op>, ts: seq<Table>, n: nat, addr: string, asset: string)
    requires IsTrace(ops, ts) && n <= |ops|
    ensures Total(ts[n], addr, asset) == OpSum(ops, n, SeedInto(addr, asset))
    decreases n
  {
    if n == 0 {
      assert Sources(map[], addr, asset) == {};
    } else {
      TotalIsSeeded(ops, ts, n - 1, addr, asset);
      assert Step(n - 1);
      TotalAfter(ts[n - 1], ops[n - 1], addr, asset);
    }
  }

  // ---------------------------------------------------------------- the split of a transfer

  /** Amounts come from unsigned on-chain balances. */
  ghost predicate Unsigned(ops: seq<Op>) {
    forall i :: 0 <= i < |ops| ==> ops[i].amount >= 0.0
  }

  ghost predicate DirectFunds(rows: Table) {
    forall k :: k in rows ==> rows[k].evmFund >= 0.0 && (rows[k].evmFund > 0.0 ==> rows[k].hops == 0)
  }

  /** In every reachable table only a direct recipient of a bridge inflow holds bridge funds. */
  lemma {:induction false} FundedRowsAreDirect(ops: seq<Op>, ts: seq<Table>, n: nat)
    requires IsTrace(ops, ts) && n <= |ops| && Unsigned(ops)
    ensures DirectFunds(ts[n])
    decreases n
  {
    if n > 0 {
      FundedRowsAreDirect(ops, ts, n - 1);
      forall k | k in ts[n]
        ensures ts[n][k].evmFund >= 0.0 && (ts[n][k].evmFund > 0.0 ==> ts[n][k].hops == 0)
      {
        StepAt(ops, ts, n - 1, k);
        assert Get(ts[n], k) == Some(ts[n][k]);
      }
    }
  }
}
