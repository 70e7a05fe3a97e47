/** Packing of (transaction version, event index) into one ordered number. */
module SeenOrds {
  import opened Prelude

  const SHIFT: int := 0x100_0000
  const INDEX_LIMIT: int := 0x100_0000
  const VERSION_LIMIT: int := 0x80_0000_0000

  /** The version shifted left by 24 bits, with the low 24 bits of the index below it. */
  function SeenOrd(version: int, index: int): (r: int) {
    Wrap(version * SHIFT) + index % INDEX_LIMIT
  }

  // ---------------------------------------------------------------- the packing, bit by bit

  /** Bitwise or and bitwise and of two's complement patterns. */
  function BitOr(a: nat, b: nat): (r: nat)
    decreases a + b
  {
    if a == 0 && b == 0 then 0 else (if a % 2 == 1 || b % 2 == 1 then 1 else 0) + 2 * BitOr(a / 2, b / 2)
  }

  function BitAnd(a: nat, b: nat): (r: nat) {
    if a == 0 || b == 0 then 0 else (if a % 2 == 1 && b % 2 == 1 then 1 else 0) + 2 * BitAnd(a / 2, b / 2)
  }

  function Pow2(n: nat): (r: nat)
    ensures r > 0
  {
    if n == 0 then 1 else 2 * Pow2(n - 1)
  }

  /** The 64-bit pattern of a signed number, and back. */
  function Pattern(x: int): (r: nat) {
    x % TWO_64
  }

  function Signed(p: nat): (r: int) {
    Wrap(p)
  }

  /** The source's expression: shift left by 24 within 64 bits, or with the masked index. */
  function Packed(version: int, index: int): (r: int) {
    Signed(BitOr((Pattern(version) * Pow2(24)) % TWO_64, BitAnd(Pattern(index), Pow2(24) - 1)))
  }

  lemma {:induction false} OrOfDisjoint(a: nat, b: nat, n: nat)
    requires b < Pow2(n)
    ensures BitOr(a * Pow2(n), b) == a * Pow2(n) + b
    decreases n
  {
    if n == 0 {
      OrWithZero(a);
    } else {
      var x := a * Pow2(n);
      assert x == 2 * (a * Pow2(n - 1));
      OrOfDisjoint(a, b / 2, n - 1);
    }
  }

  lemma {:induction false} OrWithZero(a: nat)
    ensures BitOr(a, 0) == a
  {
    if a > 0 {
      OrWithZero(a / 2);
    }
  }

  lemma MaskStep(a: nat, m: nat)
    requires a > 0 && m > 0
    ensures BitAnd(a, 2 * m - 1) == a % 2 + 2 * BitAnd(a / 2, m - 1)
  {
    assert (2 * m - 1) / 2 == m - 1 && (2 * m - 1) % 2 == 1;
  }

  lemma Doubled(a: nat, q: nat, m: nat, x: nat)
    requires a / 2 == q * m + x
    ensures a == q * (2 * m) + (a % 2 + 2 * x)
  {
    assert q * (2 * m) == 2 * (q * m);
  }

  /** The mask leaves what is above the low `n` bits a multiple of their weight. */
  lemma {:induction false} MaskSplits(a: nat, n: nat) returns (q: nat)
    ensures a == q * Pow2(n) + BitAnd(a, Pow2(n) - 1) && BitAnd(a, Pow2(n) - 1) < Pow2(n)
    decreases n
  {
    if n == 0 {
      q := a;
    } else if a == 0 {
      q := 0;
    } else {
      var m := Pow2(n - 1);
      q := MaskSplits(a / 2, n - 1);
      MaskStep(a, m);
      Doubled(a, q, m, BitAnd(a / 2, m - 1));
    }
  }

  lemma TopBits(x: nat) returns (top: nat)
    ensures (x * SHIFT) % TWO_64 == top * SHIFT
  {
    top := (x * SHIFT) % TWO_64 / SHIFT;
  }

  /** The bit expression is the arithmetic that the other lemmas reason about, for all arguments. */
  lemma SeenOrdIsPacked(version: int, index: int)
    ensures Packed(version, index) == SeenOrd(version, index)
  {
    Pow24();
    var top := TopBits(Pattern(version));
    var q := MaskSplits(Pattern(index), 24);
    LowBits(index, q, BitAnd(Pattern(index), SHIFT - 1));
    OrOfDisjoint(top, index % SHIFT, 24);
    SameHigh(version, index);
  }

  lemma LowBits(index: int, q: nat, low: nat)
    requires Pattern(index) == q * SHIFT + low && low < SHIFT
    ensures low == index % SHIFT
  {
  }

  lemma Pow24()
    ensures Pow2(24) == SHIFT
  {
    assert Pow2(8) == 256;
    assert Pow2(16) == 65536;
  }

  lemma SameHigh(version: int, index: int)
    ensures Signed((Pattern(version) * SHIFT) % TWO_64 + index % SHIFT) == SeenOrd(version, index)
  {
  }

  // ---------------------------------------------------------------- reading it back

  ghost predicate InRange(version: int, index: int) {
    0 <= version < VERSION_LIMIT && 0 <= index < INDEX_LIMIT
  }

  function Decode(ord: int): (r: (int, int)) {
    (ord / SHIFT, ord % SHIFT)
  }

  /** The pair can be read back exactly when it is in range. */
  lemma SeenOrdDecodes(version: int, index: int)
    requires 0 <= version < TWO_63 && 0 <= index < TWO_63
    ensures Decode(SeenOrd(version, index)) == (version, index) <==> InRange(version, index)
  {
    if version < VERSION_LIMIT {
      assert Wrap(version * SHIFT) == version * SHIFT;
      assert Decode(SeenOrd(version, index)) == (version, index % INDEX_LIMIT);
    } else {
      var ord := SeenOrd(version, index);
      assert ord < TWO_63;
      assert ord / SHIFT < VERSION_LIMIT;
    }
  }

  ghost predicate Before(v: int, i: int, w: int, j: int) {
    v < w || (v == w && i <= j)
  }

  /** In range, the packed numbers are ordered as the pairs are. */
  lemma SeenOrdKeepsOrder(v: int, i: int, w: int, j: int)
    requires InRange(v, i) && InRange(w, j)
    ensures SeenOrd(v, i) <= SeenOrd(w, j) <==> Before(v, i, w, j)
    ensures SeenOrd(v, i) == SeenOrd(w, j) ==> v == w && i == j
  {
    SeenOrdDecodes(v, i);
    SeenOrdDecodes(w, j);
    assert Wrap(v * SHIFT) == v * SHIFT && Wrap(w * SHIFT) == w * SHIFT;
  }
}
