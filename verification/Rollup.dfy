/** The rollup of EVM funding sources: one row per address, asset and EVM source, kept by bridge
    seeds and by transfers. */
module Rollup {
  import opened Prelude
  import opened Sums
  import opened SeenOrds

  datatype Key = Key(addr: string, asset: string, evm: string)

  datatype Row = Row(evmFund: real, transferFund: real, firstSeen: int, lastSeen: int, hops: nat)

  type Table = map<Key, Row>

  /** The two ways an edge changes the table. */
  datatype Op =
    | Seed(to: string, asset: string, evm: string, amount: real, version: int, index: int)
    | Transfer(from: string, to: string, asset: string, amount: real, version: int, index: int)
  {
    function Ord(): (r: int) {
      SeenOrd(version, index)
    }
  }

  function Least(a: int, b: int): (r: int) { if a <= b then a else b }

  function Greatest(a: int, b: int): (r: int) { if a <= b then b else a }

  // ---------------------------------------------------------------- reading the table

  /** The EVM sources recorded for an address and asset. */
  function Sources(rows: Table, addr: string, asset: string): (r: set<string>) {
    set k | k in rows.Keys && k.addr == addr && k.asset == asset :: k.evm
  }

  function FundOf(rows: Table, k: Key): (r: real) {
    if k in rows then rows[k].evmFund else 0.0
  }

  function CreditOf(rows: Table, k: Key): (r: real) {
    if k in rows then rows[k].transferFund else 0.0
  }

  function Funds(rows: Table, addr: string, asset: string): (r: string -> real) {
    e => FundOf(rows, Key(addr, asset, e))
  }

  ghost function Total(rows: Table, addr: string, asset: string): (r: real) {
    Sum(Sources(rows, addr, asset), Funds(rows, addr, asset))
  }

  // ---------------------------------------------------------------- the two upserts

  const UNIT: real := 1000000000.0

  /** `ROUND(x, 9)`: to nine places, halves away from zero. */
  function Round9(x: real): (r: real) {
    if x >= 0.0 then (x * UNIT + 0.5).Floor as real / UNIT else -((-x * UNIT + 0.5).Floor as real / UNIT)
  }

  function SeedRow(stored: Option<Row>, amount: real, ord: int): (r: Row) {
    match stored
    case None => Row(amount, 0.0, ord, ord, 0)
    case Some(s) => Row(s.evmFund + amount, s.transferFund, Least(s.firstSeen, ord), Greatest(s.lastSeen, ord), 0)
  }

  /** The plain proportional part of a transferred amount. */
  function Proportion(amount: real, total: real, fund: real): (r: real)
    requires total > 0.0
  {
    (amount / total) * fund
  }

  /** A part weighted by the distance of its source. */
  function Weighted(part: real, hops: nat): (r: real) {
    part * (1.0 / (hops + 1) as real)
  }

  /** A source's share of a transferred amount, weighted by the distance of the source. */
  function Share(amount: real, total: real, src: Row): (r: real)
    requires total > 0.0
  {
    Round9(Weighted(Proportion(amount, total, src.evmFund), src.hops))
  }

  function TransferRow(stored: Option<Row>, share: real, hops: nat, ord: int): (r: Row) {
    match stored
    case None => Row(0.0, share, ord, ord, hops)
    case Some(s) => Row(s.evmFund, s.transferFund + share, Least(s.firstSeen, ord), Greatest(s.lastSeen, ord),
                        if s.hops <= hops then s.hops else hops)
  }

  /** The row that a transfer leaves at the receiver for source `evm`. */
  function Received(rows: Table, op: Op, total: real, evm: string): (r: Row)
    requires op.Transfer? && total > 0.0 && Key(op.from, op.asset, evm) in rows
  {
    var src := rows[Key(op.from, op.asset, evm)];
    TransferRow(Get(rows, Key(op.to, op.asset, evm)), Share(op.amount, total, src), src.hops + 1, op.Ord())
  }

  ghost predicate Funded(rows: Table, op: Op) {
    op.Transfer? && Total(rows, op.from, op.asset) > 0.0
  }

  /** A row that an operation writes. */
  ghost predicate Touches(rows: Table, op: Op, k: Key) {
    && k.addr == op.to && k.asset == op.asset
    && match op
       case Seed(_, _, evm, _, _, _) => k.evm == evm
       case Transfer(from, _, _, _, _, _) => Funded(rows, op) && Key(from, op.asset, k.evm) in rows
  }

  /** The table after one operation.  A transfer reads the sender's rows as they were before it
      and touches nothing when the sender has no positive total. */
  ghost function Apply(rows: Table, op: Op): (r: Table) {
    match op
    case Seed(to, asset, evm, amount, _, _) =>
      rows[Key(to, asset, evm) := SeedRow(Get(rows, Key(to, asset, evm)), amount, op.Ord())]
    case Transfer(from, to, asset, amount, _, _) =>
      if !Funded(rows, op) then rows
      else
        var total := Total(rows, from, asset);
        var targets := set e | e in Sources(rows, from, asset) :: Key(to, asset, e);
        map k | k in rows.Keys + targets :: if k in targets then Received(rows, op, total, k.evm) else rows[k]
  }

  /** The same, row by row. */
  ghost function RowAfter(rows: Table, op: Op, k: Key): (r: Option<Row>) {
    if !Touches(rows, op, k) then Get(rows, k)
    else match op
      case Seed(_, _, _, amount, _, _) => Some(SeedRow(Get(rows, k), amount, op.Ord()))
      case Transfer(from, _, asset, _, _, _) => Some(Received(rows, op, Total(rows, from, asset), k.evm))
  }

  lemma ApplyAt(rows: Table, op: Op, k: Key)
    ensures Get(Apply(rows, op), k) == RowAfter(rows, op, k)
  {
    assert k == Key(k.addr, k.asset, k.evm);
    if op.Transfer? {
      assert Key(op.from, op.asset, k.evm) in rows <==> k.evm in Sources(rows, op.from, op.asset);
    }
  }

  lemma SameRows(a: Table, b: Table)
    requires forall k :: Get(a, k) == Get(b, k)
    ensures a == b
  {
    forall k
      ensures k in a <==> k in b
      ensures k in a ==> a[k] == b[k]
    {
      assert Get(a, k) == Get(b, k);
    }
    assert a.Keys == b.Keys;
  }

  // ---------------------------------------------------------------- the upserts as methods

  /** Part way through a transfer: the sources `todo` have not been passed on yet. */
  ghost predicate PassedOn(snapshot: Table, op: Op, rows: Table, todo: set<string>) {
    forall k :: Get(rows, k) == if k.evm in todo then Get(snapshot, k) else RowAfter(snapshot, op, k)
  }

  lemma PassOne(snapshot: Table, op: Op, rows: Table, todo: set<string>, e: string)
    requires Funded(snapshot, op) && PassedOn(snapshot, op, rows, todo)
    requires e in todo && Key(op.from, op.asset, e) in snapshot
    ensures Get(rows, Key(op.to, op.asset, e)) == Get(snapshot, Key(op.to, op.asset, e))
    ensures PassedOn(snapshot, op, rows[Key(op.to, op.asset, e) := Received(snapshot, op, Total(snapshot, op.from, op.asset), e)], todo - {e})
  {
    var k := Key(op.to, op.asset, e);
    var rows' := rows[k := Received(snapshot, op, Total(snapshot, op.from, op.asset), e)];
    forall j
      ensures Get(rows', j) == if j.evm in todo - {e} then Get(snapshot, j) else RowAfter(snapshot, op, j)
    {
      assert j == Key(j.addr, j.asset, j.evm);
      assert Get(rows, j) == if j.evm in todo then Get(snapshot, j) else RowAfter(snapshot, op, j);
    }
  }

  lemma AllPassedOn(snapshot: Table, op: Op, rows: Table)
    requires PassedOn(snapshot, op, rows, {})
    ensures rows == Apply(snapshot, op)
  {
    forall k
      ensures Get(rows, k) == Get(Apply(snapshot, op), k)
    {
      ApplyAt(snapshot, op, k);
    }
    SameRows(rows, Apply(snapshot, op));
  }

  lemma NothingPassedOn(snapshot: Table, op: Op)
    requires Funded(snapshot, op)
    ensures PassedOn(snapshot, op, snapshot, Sources(snapshot, op.from, op.asset))
  {
    forall k: Key
      ensures k.evm in Sources(snapshot, op.from, op.asset) || Get(snapshot, k) == RowAfter(snapshot, op, k)
    {
      assert Key(op.from, op.asset, k.evm) in snapshot ==> k.evm in Sources(snapshot, op.from, op.asset);
    }
  }

  class EvmSources {
    var rows: Table

    constructor ()
      ensures rows == map[]
    {
      rows := map[];
    }

    method UpsertBridgeSeed(recipient: string, asset: string, evm: string, amount: real, version: int, index: int)
      modifies this
      ensures rows == Apply(old(rows), Seed(recipient, asset, evm, amount, version, index))
    {
      var k := Key(recipient, asset, evm);
      var ord := SeenOrd(version, index);
      if k in rows {
        var s := rows[k];
        rows := rows[k := Row(s.evmFund + amount, s.transferFund, Least(s.firstSeen, ord), Greatest(s.lastSeen, ord), 0)];
      } else {
        rows := rows[k := Row(amount, 0.0, ord, ord, 0)];
      }
    }

    method SumFunds(addr: string, asset: string) returns (total: real)
      ensures total == Total(rows, addr, asset)
    {
      var todo := Sources(rows, addr, asset);
      total := 0.0;
      while todo != {}
        invariant todo <= Sources(rows, addr, asset)
        invariant total + Sum(todo, Funds(rows, addr, asset)) == Total(rows, addr, asset)
        decreases todo
      {
        var e :| e in todo;
        SumPick(todo, e, Funds(rows, addr, asset));
        total := total + rows[Key(addr, asset, e)].evmFund;
        todo := todo - {e};
      }
    }

    method UpsertTransfer(k: Key, share: real, hops: nat, ord: int)
      modifies this
      ensures rows == old(rows)[k := TransferRow(Get(old(rows), k), share, hops, ord)]
    {
      if k in rows {
        var s := rows[k];
        rows := rows[k := Row(s.evmFund, s.transferFund + share, Least(s.firstSeen, ord), Greatest(s.lastSeen, ord),
                              if s.hops <= hops then s.hops else hops)];
      } else {
        rows := rows[k := Row(0.0, share, ord, ord, hops)];
      }
    }

    /** One source of the sender, as read before the transfer. */
    method PassSource(snapshot: Table, op: Op, total: real, e: string, ghost todo: set<string>)
      requires Funded(snapshot, op) && total == Total(snapshot, op.from, op.asset)
      requires PassedOn(snapshot, op, rows, todo) && e in todo && Key(op.from, op.asset, e) in snapshot
      modifies this
      ensures PassedOn(snapshot, op, rows, todo - {e})
    {
      PassOne(snapshot, op, rows, todo, e);
      var src := snapshot[Key(op.from, op.asset, e)];
      UpsertTransfer(Key(op.to, op.asset, e), Share(op.amount, total, src), src.hops + 1, op.Ord());
    }

    /** Passes a transfer's amount on to the receiver, split over the sender's sources. */
    method PropagateEvmSources(from: string, to: string, asset: string, amount: real, version: int, index: int)
      modifies this
      ensures rows == Apply(old(rows), Transfer(from, to, asset, amount, version, index))
    {
      var op := Transfer(from, to, asset, amount, version, index);
      var total := SumFunds(from, asset);
      if total <= 0.0 {
        return;
      }
      var snapshot := rows;
      var todo := Sources(snapshot, from, asset);
      NothingPassedOn(snapshot, op);
      while todo != {}
        invariant todo <= Sources(snapshot, from, asset)
        invariant PassedOn(snapshot, op, rows, todo)
        decreases todo
      {
        var e :| e in todo;
        PassSource(snapshot, op, total, e, todo);
        todo := todo - {e};
      }
      AllPassedOn(snapshot, op, rows);
    }
  }
}
