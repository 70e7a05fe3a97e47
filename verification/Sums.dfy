/** Sums of reals over finite sets of names. */
module Sums {

  ghost function Sum(s: set<string>, f: string -> real): (r: real)
    decreases s
  {
    if s == {} then 0.0
    else
      var x :| x in s;
      f(x) + Sum(s - {x}, f)
  }

  /** Any element may be taken out first. */
  lemma {:induction false} SumPick(s: set<string>, x: string, f: string -> real)
    requires x in s
    ensures Sum(s, f) == f(x) + Sum(s - {x}, f)
    decreases s
  {
    var y :| y in s && Sum(s, f) == f(y) + Sum(s - {y}, f);
    if y != x {
      SumPick(s - {y}, x, f);
      SumPick(s - {x}, y, f);
      assert s - {y} - {x} == s - {x} - {y};
    }
  }

  lemma SumInsert(s: set<string>, x: string, f: string -> real)
    requires x !in s
    ensures Sum(s + {x}, f) == f(x) + Sum(s, f)
  {
    SumPick(s + {x}, x, f);
    assert s + {x} - {x} == s;
  }

  lemma {:induction false} SumCongruent(s: set<string>, f: string -> real, g: string -> real)
    requires forall x :: x in s ==> f(x) == g(x)
    ensures Sum(s, f) == Sum(s, g)
    decreases s
  {
    if s != {} {
      var x :| x in s;
      SumPick(s, x, f);
      SumPick(s, x, g);
      SumCongruent(s - {x}, f, g);
    }
  }

  /** Elements that contribute nothing may be added. */
  lemma {:induction false} SumWiden(s: set<string>, t: set<string>, f: string -> real)
    requires s <= t && forall x :: x in t - s ==> f(x) == 0.0
    ensures Sum(t, f) == Sum(s, f)
    decreases t - s
  {
    if t - s == {} {
      forall x | x in t
        ensures x in s
      {
        assert x !in t - s;
      }
      assert s == t;
    } else {
      var x :| x in t - s;
      SumInsert(s, x, f);
      SumWiden(s + {x}, t, f);
    }
  }

  lemma {:induction false} SumAdd(s: set<string>, f: string -> real, g: string -> real)
    ensures Sum(s, (x: string) => f(x) + g(x)) == Sum(s, f) + Sum(s, g)
    decreases s
  {
    var h := (x: string) => f(x) + g(x);
    if s != {} {
      var x :| x in s;
      SumPick(s, x, f);
      SumPick(s, x, g);
      SumPick(s, x, h);
      SumAdd(s - {x}, f, g);
    }
  }

  /** Two sums over overlapping sets, each zero outside its own. */
  lemma SumUnion(s: set<string>, t: set<string>, f: string -> real, g: string -> real, h: string -> real)
    requires forall x :: x in t - s ==> f(x) == 0.0
    requires forall x :: x in s - t ==> g(x) == 0.0
    requires forall x :: x in s + t ==> h(x) == f(x) + g(x)
    ensures Sum(s + t, h) == Sum(s, f) + Sum(t, g)
  {
    SumAdd(s + t, f, g);
    SumCongruent(s + t, h, (x: string) => f(x) + g(x));
    SumWiden(s, s + t, f);
    SumWiden(t, s + t, g);
  }

  lemma {:induction false} SumScale(s: set<string>, f: string -> real, c: real)
    ensures Sum(s, (x: string) => c * f(x)) == c * Sum(s, f)
    decreases s
  {
    var g := (x: string) => c * f(x);
    if s != {} {
      var x :| x in s;
      SumPick(s, x, f);
      SumPick(s, x, g);
      SumScale(s - {x}, f, c);
      assert c * (f(x) + Sum(s - {x}, f)) == c * f(x) + c * Sum(s - {x}, f);
    }
  }

  ghost predicate Near(a: real, b: real, eps: real) {
    -eps <= a - b <= eps
  }

  /** `n` times `eps`, as a repeated sum. */
  function Times(n: nat, eps: real): (r: real) {
    if n == 0 then 0.0 else Times(n - 1, eps) + eps
  }

  lemma {:induction false} TimesIsProduct(n: nat, eps: real)
    ensures Times(n, eps) == n as real * eps
  {
    if n > 0 {
      TimesIsProduct(n - 1, eps);
      assert n as real == (n - 1) as real + 1.0;
      assert ((n - 1) as real + 1.0) * eps == (n - 1) as real * eps + eps;
    }
  }

  /** If the terms on `near` differ by at most `eps` and all others agree, the sums differ by at
      most `eps` for each element of `near`. */
  lemma {:induction false} SumNear(s: set<string>, near: set<string>, f: string -> real, g: string -> real, eps: real)
    requires near <= s
    requires forall x :: x in near ==> Near(f(x), g(x), eps)
    requires forall x :: x in s - near ==> f(x) == g(x)
    ensures Near(Sum(s, f), Sum(s, g), Times(|near|, eps))
    decreases s
  {
    if s == {} {
      assert near == {};
    } else {
      var x :| x in s;
      SumPick(s, x, f);
      SumPick(s, x, g);
      SumNear(s - {x}, near - {x}, f, g, eps);
      if x in near {
        assert |near| == |near - {x}| + 1;
      } else {
        assert near - {x} == near;
      }
    }
  }
}
