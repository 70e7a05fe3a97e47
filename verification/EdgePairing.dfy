/** Greedy pairing of the withdraws and deposits of one transaction. */
module EdgePairing {
  import opened Prelude

  datatype Side = Side(eventIndex: nat, address: string, storageId: string, amount: real)

  /** For each withdraw the index of the deposit it is paired with, if any. */
  type Pairing = seq<Option<nat>>

  predicate Compatible(w: Side, d: Side) {
    d.amount == w.amount && d.address != w.address
  }

  /** The first compatible deposit, from index `i` on, that `used` leaves free. */
  function FirstFree(w: Side, ds: seq<Side>, used: Pairing, i: nat): (r: Option<nat>)
    decreases |ds| - i
  {
    if i >= |ds| then None
    else if Some(i) !in used && Compatible(w, ds[i]) then Some(i)
    else FirstFree(w, ds, used, i + 1)
  }

  /** Each withdraw in turn takes the first compatible deposit that is still free. */
  function Pair(ws: seq<Side>, ds: seq<Side>): (r: Pairing)
    ensures |r| == |ws|
  {
    if ws == [] then []
    else
      var p := Pair(ws[..|ws| - 1], ds);
      p + [FirstFree(ws[|ws| - 1], ds, p, 0)]
  }

  /** A pairing of compatible sides that uses no deposit twice. */
  ghost predicate ValidPairing(ws: seq<Side>, ds: seq<Side>, p: Pairing) {
    && |p| == |ws|
    && (forall i :: 0 <= i < |p| && p[i].Some? ==>
          p[i].value < |ds| && ds[p[i].value].amount == ws[i].amount && ds[p[i].value].address != ws[i].address)
    && (forall i, j :: 0 <= i < j < |p| && p[i].Some? ==> p[i] != p[j])
  }

  /** Deposit `j` was taken by a withdraw before `i`. */
  ghost predicate TakenBefore(p: Pairing, i: nat, j: nat) {
    exists h :: 0 <= h < i && h < |p| && p[h] == Some(j)
  }

  /** A withdraw passes over a compatible deposit only when an earlier withdraw has it. */
  ghost predicate PassesOnlyTaken(ws: seq<Side>, ds: seq<Side>, p: Pairing)
    requires |p| == |ws|
  {
    forall i: nat, j: nat ::
      i < |ws| && j < |ds| && ds[j].amount == ws[i].amount && ds[j].address != ws[i].address && (p[i].None? || j < p[i].value)
      ==> TakenBefore(p, i, j)
  }

  lemma {:induction false} FirstFreeIsFirst(w: Side, ds: seq<Side>, used: Pairing, i: nat)
    ensures var r := FirstFree(w, ds, used, i);
            && (r.Some? ==> i <= r.value < |ds| && r !in used && Compatible(w, ds[r.value]))
            && (forall j: nat :: i <= j < |ds| && Compatible(w, ds[j]) && (r.None? || j < r.value) ==> Some(j) in used)
    decreases |ds| - i
  {
    if i < |ds| {
      FirstFreeIsFirst(w, ds, used, i + 1);
    }
  }

  /** The greedy pairing is valid and passes over taken deposits only. */
  lemma {:induction false} PairIsGreedy(ws: seq<Side>, ds: seq<Side>)
    ensures ValidPairing(ws, ds, Pair(ws, ds))
    ensures PassesOnlyTaken(ws, ds, Pair(ws, ds))
  {
    if ws != [] {
      var n := |ws| - 1;
      var p, q := Pair(ws[..n], ds), Pair(ws, ds);
      PairIsGreedy(ws[..n], ds);
      FirstFreeIsFirst(ws[n], ds, p, 0);
      forall i: nat, j: nat | i < |ws| && j < |ds| && Compatible(ws[i], ds[j]) && (q[i].None? || j < q[i].value)
        ensures TakenBefore(q, i, j)
      {
        if i < n {
          assert ws[..n][i] == ws[i] && TakenBefore(p, i, j);
          var h :| 0 <= h < i && p[h] == Some(j);
          assert q[h] == Some(j);
        } else {
          assert Some(j) in p;
          var h :| 0 <= h < |p| && p[h] == Some(j);
          assert q[h] == Some(j);
        }
      }
    }
  }

  /** Of two such pairings that agree so far, neither passes over what the other takes next. */
  lemma NoEarlierChoice(ws: seq<Side>, ds: seq<Side>, p: Pairing, q: Pairing, i: nat)
    requires ValidPairing(ws, ds, p) && |q| == |ws| && PassesOnlyTaken(ws, ds, q)
    requires i < |ws| && p[..i] == q[..i] && p[i].Some?
    ensures q[i].Some? && q[i].value <= p[i].value
  {
    forall h | 0 <= h < i
      ensures q[h] != p[i]
    {
      assert p[..i][h] == q[..i][h];
    }
    assert !TakenBefore(q, i, p[i].value);
  }

  /** Those two properties determine the pairing. */
  lemma {:induction false} GreedyIsUnique(ws: seq<Side>, ds: seq<Side>, p: Pairing, q: Pairing, n: nat)
    requires ValidPairing(ws, ds, p) && PassesOnlyTaken(ws, ds, p)
    requires ValidPairing(ws, ds, q) && PassesOnlyTaken(ws, ds, q)
    requires n <= |ws|
    ensures p[..n] == q[..n]
  {
    if n > 0 {
      var i := n - 1;
      GreedyIsUnique(ws, ds, p, q, i);
      if p[i].Some? {
        NoEarlierChoice(ws, ds, p, q, i);
      }
      if q[i].Some? {
        NoEarlierChoice(ws, ds, q, p, i);
      }
      assert p[..n] == p[..i] + [p[i]] && q[..n] == q[..i] + [q[i]];
    }
  }

  /** It is a maximal matching: no withdraw left over is compatible with a deposit left over. */
  lemma PairIsMaximal(ws: seq<Side>, ds: seq<Side>, i: nat, j: nat)
    requires i < |ws| && j < |ds|
    requires Pair(ws, ds)[i].None? && Some(j) !in Pair(ws, ds)
    ensures ds[j].amount != ws[i].amount || ds[j].address == ws[i].address
  {
    PairIsGreedy(ws, ds);
    assert !TakenBefore(Pair(ws, ds), i, j);
  }

  // ---------------------------------------------------------------- at least half of the best

  /** The withdraws that are paired. */
  ghost function Matched(p: Pairing): (r: set<nat>) {
    set i: nat | i < |p| && p[i].Some?
  }

  lemma {:induction false} InjectionBound(s: set<nat>, t: set<nat>, f: nat -> nat)
    requires forall i :: i in s ==> f(i) in t
    requires forall i, j :: i in s && j in s && f(i) == f(j) ==> i == j
    ensures |s| <= |t|
    decreases s
  {
    if s != {} {
      var x :| x in s;
      InjectionBound(s - {x}, t - {f(x)}, f);
    }
  }

  ghost function OwnerOf(p: Pairing, d: Option<nat>): (r: nat)
    ensures d in p ==> r < |p| && p[r] == d
  {
    if d in p then
      var i: nat :| i < |p| && p[i] == d;
      i
    else 0
  }

  /** No valid pairing of the same sides has more than twice as many pairs. */
  lemma PairIsAtLeastHalf(ws: seq<Side>, ds: seq<Side>, q: Pairing)
    requires ValidPairing(ws, ds, q)
    ensures |Matched(q)| <= 2 * |Matched(Pair(ws, ds))|
  {
    var p := Pair(ws, ds);
    PairIsGreedy(ws, ds);
    var both, rest := Matched(q) * Matched(p), Matched(q) - Matched(p);
    var owner := (i: nat) => if i < |q| then OwnerOf(p, q[i]) else 0;
    forall i | i in rest
      ensures q[i] in p && owner(i) in Matched(p)
    {
      assert TakenBefore(p, i, q[i].value);
    }
    InjectionBound(rest, Matched(p), owner);
    InjectionBound(both, Matched(p), (i: nat) => i);
    assert Matched(q) == both + rest && both !! rest;
    assert |both + rest| == |both| + |rest|;
  }

  /** The bound is tight: here the greedy pairing finds one pair where two are possible. */
  lemma HalfIsTight()
    ensures var ws := [Side(0, "a", "sa", 5.0), Side(1, "b", "sb", 5.0)];
            var ds := [Side(2, "c", "sc", 5.0), Side(3, "b", "sb", 5.0)];
            && Pair(ws, ds) == [Some(0), None]
            && ValidPairing(ws, ds, [Some(1), Some(0)])
  {
    var ws := [Side(0, "a", "sa", 5.0), Side(1, "b", "sb", 5.0)];
    var ds := [Side(2, "c", "sc", 5.0), Side(3, "b", "sb", 5.0)];
    assert "a"[0] != "b"[0] && "a"[0] != "c"[0] && "b"[0] != "c"[0];
    assert ws[..1][..0] == [] && ws[..1] == [ws[0]];
    assert Pair(ws[..1], ds) == [FirstFree(ws[0], ds, [], 0)] == [Some(0)];
    assert FirstFree(ws[1], ds, [Some(0)], 2) == None;
    assert FirstFree(ws[1], ds, [Some(0)], 1) == None;
  }

  // ---------------------------------------------------------------- the loop

  /** The pairing loop, with its array of flags for the deposits already used. */
  method PairSides(ws: seq<Side>, ds: seq<Side>) returns (p: Pairing)
    ensures p == Pair(ws, ds)
  {
    var depositUsed := new bool[|ds|](_ => false);
    p := [];
    for i := 0 to |ws|
      invariant p == Pair(ws[..i], ds)
      invariant forall j: nat :: j < |ds| ==> (depositUsed[j] <==> Some(j) in p)
    {
      assert ws[..i + 1][..i] == ws[..i];
      var j := 0;
      while j < |ds| && (depositUsed[j] || !Compatible(ws[i], ds[j]))
        invariant j <= |ds|
        invariant FirstFree(ws[i], ds, p, 0) == FirstFree(ws[i], ds, p, j)
      {
        j := j + 1;
      }
      if j < |ds| {
        depositUsed[j] := true;
        p := p + [Some(j)];
      } else {
        p := p + [None];
      }
    }
    assert ws[..|ws|] == ws;
  }
}
