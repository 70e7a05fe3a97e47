/** The storer: it sorts a batch's edges, turns them into seeds and transfers, and applies them. */
module Storer {
  import opened Prelude
  import opened SeenOrds
  import opened Extractor
  import opened Rollup
  import opened RollupHistory

  // ---------------------------------------------------------------- sorting

  ghost predicate NotAbove(a: Edge, b: Edge) {
    a.version < b.version || (a.version == b.version && a.eventIndex <= b.eventIndex)
  }

  predicate IsAbove(a: Edge, b: Edge) {
    a.version > b.version || (a.version == b.version && a.eventIndex > b.eventIndex)
  }

  /** Inserts behind every edge that is not above the new one, so equal keys keep their order. */
  function Insert(s: seq<Edge>, x: Edge): (r: seq<Edge>) {
    if s == [] || !IsAbove(s[|s| - 1], x) then s + [x]
    else Insert(s[..|s| - 1], x) + [s[|s| - 1]]
  }

  /** A stable sort by (version, event index). */
  function Sort(s: seq<Edge>): (r: seq<Edge>) {
    if s == [] then [] else Insert(Sort(s[..|s| - 1]), s[|s| - 1])
  }

  ghost predicate Sorted(s: seq<Edge>) {
    forall i, j :: 0 <= i < j < |s| ==> NotAbove(s[i], s[j])
  }

  lemma {:induction false} InsertAdds(s: seq<Edge>, x: Edge)
    ensures multiset(Insert(s, x)) == multiset(s) + multiset{x}
    ensures forall e :: e in Insert(s, x) ==> e in s || e == x
  {
    if s != [] && IsAbove(s[|s| - 1], x) {
      var n := |s| - 1;
      InsertAdds(s[..n], x);
      assert s == s[..n] + [s[n]];
    }
  }

  lemma {:induction false} InsertSorts(s: seq<Edge>, x: Edge)
    requires Sorted(s)
    ensures Sorted(Insert(s, x))
  {
    if s != [] && IsAbove(s[|s| - 1], x) {
      var n := |s| - 1;
      var r := Insert(s[..n], x);
      InsertSorts(s[..n], x);
      InsertAdds(s[..n], x);
      forall i | 0 <= i < |r|
        ensures NotAbove(r[i], s[n])
      {
        assert r[i] in r;
      }
    }
  }

  lemma {:induction false} SortSorts(s: seq<Edge>)
    ensures Sorted(Sort(s)) && multiset(Sort(s)) == multiset(s)
  {
    if s != [] {
      var n := |s| - 1;
      SortSorts(s[..n]);
      InsertSorts(Sort(s[..n]), s[n]);
      InsertAdds(Sort(s[..n]), s[n]);
      assert s == s[..n] + [s[n]];
    }
  }

  lemma SortKeepsMembers(s: seq<Edge>)
    ensures forall e :: e in Sort(s) <==> e in s
  {
    SortSorts(s);
    forall e
      ensures e in Sort(s) <==> e in s
    {
      assert e in multiset(Sort(s)) <==> e in multiset(s);
    }
  }

  lemma {:induction false} InsertBehind(a: seq<Edge>, b: seq<Edge>, x: Edge)
    requires forall e :: e in a ==> !IsAbove(e, x)
    ensures Insert(a + b, x) == a + Insert(b, x)
  {
    if b == [] {
      assert a + b == a;
    } else {
      var n := |b| - 1;
      assert (a + b)[..|a + b| - 1] == a + b[..n];
      if IsAbove(b[n], x) {
        InsertBehind(a, b[..n], x);
        assert a + (Insert(b[..n], x) + [b[n]]) == a + Insert(b[..n], x) + [b[n]];
      } else {
        assert a + (b + [x]) == a + b + [x];
      }
    }
  }

  /** Edges of later versions are sorted among themselves, behind the earlier ones. */
  lemma {:induction false} SortInBlocks(a: seq<Edge>, b: seq<Edge>)
    requires forall e, f :: e in a && f in b ==> e.version < f.version
    ensures Sort(a + b) == Sort(a) + Sort(b)
  {
    if b == [] {
      assert a + b == a && Sort(a) + [] == Sort(a);
    } else {
      var n := |b| - 1;
      assert (a + b)[..|a + b| - 1] == a + b[..n] && (a + b)[|a + b| - 1] == b[n];
      SortInBlocks(a, b[..n]);
      SortKeepsMembers(a);
      assert b[n] in b;
      InsertBehind(Sort(a), Sort(b[..n]), b[n]);
    }
  }

  // ---------------------------------------------------------------- from edges to operations

  /** The first inflow of this transaction to this recipient with this amount. */
  function MatchInflow(inflows: seq<Inflow>, e: Edge): (r: Option<Inflow>) {
    if inflows == [] then None
    else if inflows[0].version == e.version && inflows[0].recipient == e.to && inflows[0].amount == e.amount then Some(inflows[0])
    else MatchInflow(inflows[1..], e)
  }

  function SourceOf(inflows: seq<Inflow>, e: Edge): (r: Option<string>) {
    var m := MatchInflow(inflows, e);
    if m.Some? then m.value.evmSource else None
  }

  /** A bridge edge seeds its recipient when its inflow's source is known; any other edge is a
      transfer.  Edges without an asset are skipped. */
  function OpOf(inflows: seq<Inflow>, e: Edge): (r: Option<Op>) {
    if e.asset.None? then None
    else if !e.isBridge then Some(Transfer(e.from, e.to, e.asset.value, e.amount, e.version, e.eventIndex))
    else
      var evm := SourceOf(inflows, e);
      if evm.None? then None else Some(Seed(e.to, e.asset.value, evm.value, e.amount, e.version, e.eventIndex))
  }

  function Ops(inflows: seq<Inflow>, edges: seq<Edge>): (r: seq<Op>) {
    if edges == [] then []
    else
      var op := OpOf(inflows, edges[|edges| - 1]);
      Ops(inflows, edges[..|edges| - 1]) + if op.Some? then [op.value] else []
  }

  ghost function Fold(rows: Table, ops: seq<Op>): (r: Table) {
    if ops == [] then rows else Apply(Fold(rows, ops[..|ops| - 1]), ops[|ops| - 1])
  }

  /** The tables of a run from the empty table form a trace, so all that is known of traces holds. */
  lemma {:induction false} FoldIsTrace(ops: seq<Op>) returns (ts: seq<Table>)
    ensures IsTrace(ops, ts) && ts[|ops|] == Fold(map[], ops)
  {
    if ops == [] {
      ts := [map[]];
    } else {
      var n := |ops| - 1;
      var before := FoldIsTrace(ops[..n]);
      ts := before + [Fold(map[], ops)];
      forall i | Step(i) && 0 <= i < |ops|
        ensures ts[i + 1] == Apply(ts[i], ops[i])
      {
        if i < n {
          assert Step(i) && ops[..n][i] == ops[i];
          assert before[i + 1] == Apply(before[i], ops[..n][i]);
        }
      }
    }
  }

  // ---------------------------------------------------------------- what an edge does, column by column

  /** No row but those of this address and asset has changed. */
  ghost predicate Elsewhere(was: Table, now: Table, addr: string, asset: string) {
    forall k: Key :: k.addr != addr || k.asset != asset ==> Get(now, k) == Get(was, k)
  }

  /** The columns of a row that a transfer credits with a share of `src`. */
  ghost predicate CreditedBy(was: Option<Row>, now: Row, share: real, src: Row, ord: int) {
    && now.evmFund == (if was.Some? then was.value.evmFund else 0.0)
    && now.transferFund == (if was.Some? then was.value.transferFund else 0.0) + share
    && now.hops == (if was.Some? && was.value.hops < src.hops + 1 then was.value.hops else src.hops + 1)
    && now.firstSeen == (if was.Some? && was.value.firstSeen < ord then was.value.firstSeen else ord)
    && now.lastSeen == (if was.Some? && was.value.lastSeen > ord then was.value.lastSeen else ord)
  }

  /** A transfer edge credits every source that `from` has to the same source at `to`, with the rounded
      share of the amount, and changes nothing else; it does nothing when `from` has no positive total. */
  ghost predicate TransferEffect(was: Table, e: Edge, asset: string, now: Table) {
    var total := Total(was, e.from, asset);
    if total <= 0.0 then now == was
    else
      && Elsewhere(was, now, e.to, asset)
      && forall s :: SourceEffect(was, e, asset, total, now, s)
  }

  ghost predicate SourceEffect(was: Table, e: Edge, asset: string, total: real, now: Table, s: string)
    requires total > 0.0
  {
    var from, to := Key(e.from, asset, s), Key(e.to, asset, s);
    if from !in was then Get(now, to) == Get(was, to)
    else
      to in now && CreditedBy(Get(was, to), now[to], SplitShare(e.amount, total, was[from].evmFund, was[from].hops),
                              was[from], SeenOrd(e.version, e.eventIndex))
  }

  /** The share of a source with this fund and distance, to nine places. */
  function SplitShare(amount: real, total: real, fund: real, hops: nat): (r: real)
    requires total > 0.0
  {
    Round9(ExactShare(amount, total, fund, hops))
  }

  function ExactShare(amount: real, total: real, fund: real, hops: nat): (r: real)
    requires total > 0.0
  {
    ((amount / total) * fund) * (1.0 / (hops + 1) as real)
  }

  /** The first inflow with the version, recipient and amount of the edge has this source. */
  ghost predicate FirstSource(inflows: seq<Inflow>, e: Edge, source: Option<string>) {
    || (source == None && forall i :: 0 <= i < |inflows| ==> !Looks(inflows[i], e))
    || (exists i :: 0 <= i < |inflows| && Looks(inflows[i], e) && source == inflows[i].evmSource && forall h :: 0 <= h < i ==> !Looks(inflows[h], e))
  }

  predicate Looks(bi: Inflow, e: Edge) {
    bi.version == e.version && bi.recipient == e.to && bi.amount == e.amount
  }

  /** The columns of a row that a bridge edge seeds. */
  ghost predicate SeededBy(was: Option<Row>, now: Row, amount: real, ord: int) {
    && now.evmFund == (if was.Some? then was.value.evmFund else 0.0) + amount
    && now.transferFund == (if was.Some? then was.value.transferFund else 0.0)
    && now.hops == 0
    && now.firstSeen == (if was.Some? && was.value.firstSeen < ord then was.value.firstSeen else ord)
    && now.lastSeen == (if was.Some? && was.value.lastSeen > ord then was.value.lastSeen else ord)
  }

  /** A bridge edge seeds the row of its inflow's source at `to`, and nothing when there is none. */
  ghost predicate SeedEffect(was: Table, inflows: seq<Inflow>, e: Edge, asset: string, now: Table) {
    exists source :: FirstSource(inflows, e, source) &&
      if source.None? then now == was
      else
        var k := Key(e.to, asset, source.value);
        k in now && SeededBy(Get(was, k), now[k], e.amount, SeenOrd(e.version, e.eventIndex)) && now == was[k := now[k]]
  }

  /** What an edge does: nothing without an asset, else a seed or a transfer. */
  ghost predicate EdgeEffect(was: Table, inflows: seq<Inflow>, e: Edge, now: Table) {
    if e.asset.None? then now == was
    else if e.isBridge then SeedEffect(was, inflows, e, e.asset.value, now)
    else TransferEffect(was, e, e.asset.value, now)
  }

  ghost function EdgeApplied(rows: Table, inflows: seq<Inflow>, e: Edge): (r: Table) {
    var op := OpOf(inflows, e);
    if op.Some? then Apply(rows, op.value) else rows
  }

  lemma {:induction false} SourceIsFirst(inflows: seq<Inflow>, e: Edge)
    ensures FirstSource(inflows, e, SourceOf(inflows, e))
  {
    if inflows != [] && !Looks(inflows[0], e) {
      var rest := inflows[1..];
      SourceIsFirst(rest, e);
      assert forall i :: 0 < i < |inflows| ==> inflows[i] == rest[i - 1];
      if i :| 0 <= i < |rest| && Looks(rest[i], e) && SourceOf(rest, e) == rest[i].evmSource && forall h :: 0 <= h < i ==> !Looks(rest[h], e) {
        assert inflows[i + 1] == rest[i];
      }
    }
  }

  lemma ExactIsWeighted(amount: real, total: real, fund: real, hops: nat)
    requires total > 0.0
    ensures ExactShare(amount, total, fund, hops) == Weighted(Proportion(amount, total, fund), hops)
  {
  }

  lemma ShareIsSplit(amount: real, total: real, src: Row)
    requires total > 0.0
    ensures Share(amount, total, src) == SplitShare(amount, total, src.evmFund, src.hops)
  {
    ExactIsWeighted(amount, total, src.evmFund, src.hops);
  }

  lemma TransferRowCredits(stored: Option<Row>, share: real, src: Row, ord: int)
    ensures CreditedBy(stored, TransferRow(stored, share, src.hops + 1, ord), share, src, ord)
  {
  }

  lemma SourceIsCredited(rows: Table, e: Edge, asset: string, total: real, s: string)
    requires total == Total(rows, e.from, asset) && total > 0.0
    ensures SourceEffect(rows, e, asset, total, Apply(rows, Transfer(e.from, e.to, asset, e.amount, e.version, e.eventIndex)), s)
  {
    var op := Transfer(e.from, e.to, asset, e.amount, e.version, e.eventIndex);
    var from, to := Key(e.from, asset, s), Key(e.to, asset, s);
    ApplyAt(rows, op, to);
    if from in rows {
      assert Get(Apply(rows, op), to) == Some(Received(rows, op, total, s));
      RowIsCredited(rows, op, total, s);
    }
  }

  lemma RowIsCredited(rows: Table, op: Op, total: real, s: string)
    requires op.Transfer? && total > 0.0 && Key(op.from, op.asset, s) in rows
    ensures var src := rows[Key(op.from, op.asset, s)];
            CreditedBy(Get(rows, Key(op.to, op.asset, s)), Received(rows, op, total, s), SplitShare(op.amount, total, src.evmFund, src.hops),
                       src, SeenOrd(op.version, op.index))
  {
    var src := rows[Key(op.from, op.asset, s)];
    ShareIsSplit(op.amount, total, src);
    TransferRowCredits(Get(rows, Key(op.to, op.asset, s)), Share(op.amount, total, src), src, op.Ord());
  }

  lemma TransferHasEffect(rows: Table, e: Edge, asset: string)
    ensures TransferEffect(rows, e, asset, Apply(rows, Transfer(e.from, e.to, asset, e.amount, e.version, e.eventIndex)))
  {
    var op := Transfer(e.from, e.to, asset, e.amount, e.version, e.eventIndex);
    if Total(rows, e.from, asset) > 0.0 {
      forall k: Key | k.addr != e.to || k.asset != asset
        ensures Get(Apply(rows, op), k) == Get(rows, k)
      {
        ApplyAt(rows, op, k);
      }
      forall s
        ensures SourceEffect(rows, e, asset, Total(rows, e.from, asset), Apply(rows, op), s)
      {
        SourceIsCredited(rows, e, asset, Total(rows, e.from, asset), s);
      }
    }
  }

  lemma EdgeHasEffect(rows: Table, inflows: seq<Inflow>, e: Edge)
    ensures EdgeEffect(rows, inflows, e, EdgeApplied(rows, inflows, e))
  {
    if e.asset.Some? {
      if e.isBridge {
        SourceIsFirst(inflows, e);
        assert FirstSource(inflows, e, SourceOf(inflows, e));
      } else {
        TransferHasEffect(rows, e, e.asset.value);
      }
    }
  }

  class AddressReputationStorer {
    const sources: EvmSources
    const propagate: bool

    constructor (sources: EvmSources, propagate: bool)
      ensures this.sources == sources && this.propagate == propagate
    {
      this.sources, this.propagate := sources, propagate;
    }

    /** The whole batch runs in one database transaction, so its edges see each other's rows. */
    method Process(edges: seq<Edge>, inflows: seq<Inflow>)
      modifies sources
      ensures sources.rows == if propagate then Fold(old(sources.rows), Ops(inflows, Sort(edges))) else old(sources.rows)
    {
      if !propagate {
        return;
      }
      var sorted := Sort(edges);
      for i := 0 to |sorted|
        invariant sources.rows == Fold(old(sources.rows), Ops(inflows, sorted[..i]))
      {
        ProcessEdge(sorted[i], inflows);
        FoldNext(old(sources.rows), inflows, sorted, i);
      }
      assert sorted[..|sorted|] == sorted;
    }

    method ProcessEdge(e: Edge, inflows: seq<Inflow>)
      modifies sources
      ensures sources.rows == EdgeApplied(old(sources.rows), inflows, e)
      ensures EdgeEffect(old(sources.rows), inflows, e, sources.rows)
    {
      EdgeHasEffect(sources.rows, inflows, e);
      if e.asset.None? {
        return;
      }
      if e.isBridge {
        var evm := SourceOf(inflows, e);
        if evm.Some? {
          sources.UpsertBridgeSeed(e.to, e.asset.value, evm.value, e.amount, e.version, e.eventIndex);
        }
      } else {
        sources.PropagateEvmSources(e.from, e.to, e.asset.value, e.amount, e.version, e.eventIndex);
      }
    }
  }

  lemma FoldNext(rows: Table, inflows: seq<Inflow>, edges: seq<Edge>, i: nat)
    requires i < |edges|
    ensures var op, before := OpOf(inflows, edges[i]), Fold(rows, Ops(inflows, edges[..i]));
            Fold(rows, Ops(inflows, edges[..i + 1])) == if op.Some? then Apply(before, op.value) else before
  {
    FoldOps(rows, inflows, edges[..i], edges[i]);
    assert edges[..i] + [edges[i]] == edges[..i + 1];
  }

  lemma FoldOps(rows: Table, inflows: seq<Inflow>, edges: seq<Edge>, e: Edge)
    ensures var op, before := OpOf(inflows, e), Fold(rows, Ops(inflows, edges));
            Fold(rows, Ops(inflows, edges + [e])) == if op.Some? then Apply(before, op.value) else before
  {
    assert (edges + [e])[..|edges|] == edges;
    var ops, op := Ops(inflows, edges), OpOf(inflows, e);
    if op.Some? {
      assert (ops + [op.value])[..|ops|] == ops;
    } else {
      assert ops + [] == ops;
    }
  }
}
