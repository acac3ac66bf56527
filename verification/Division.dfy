/** Quotient and remainder by a variable, in steps small enough for nonlinear arithmetic. */
module Division {

  function Div(x: nat, f: nat): nat
    requires f > 0
  {
    x / f
  }

  function Mod(x: nat, f: nat): nat
    requires f > 0
  {
    x % f
  }

  lemma DivMod(x: nat, f: nat)
    requires f > 0
    ensures x == Div(x, f) * f + Mod(x, f) && Mod(x, f) < f
  {
  }

  lemma {:induction false} MulStep(e: nat, d: nat, f: nat)
    requires e < d
    ensures e * f + f <= d * f
  {
    if e + 1 < d {
      MulStep(e, d - 1, f);
      assert d * f == (d - 1) * f + f;
    } else {
      assert d * f == e * f + f;
    }
  }

  lemma SameQuotient(e: nat, r: nat, d: nat, m: nat, f: nat)
    requires r < f && m < f && e * f + r == d * f + m
    ensures e == d && r == m
  {
    if e < d {
      MulStep(e, d, f);
    } else if d < e {
      MulStep(d, e, f);
    }
  }

  lemma DivUnique(y: nat, f: nat, d: nat, m: nat)
    requires m < f && y == d * f + m
    ensures Div(y, f) == d && Mod(y, f) == m
  {
    hide Div, Mod;
    DivMod(y, f);
    SameQuotient(Div(y, f), Mod(y, f), d, m, f);
  }

  lemma DivMonotone(x: nat, y: nat, f: nat)
    requires f > 0 && x <= y
    ensures Div(x, f) <= Div(y, f)
  {
    hide Div, Mod;
    DivMod(x, f);
    DivMod(y, f);
    if Div(y, f) < Div(x, f) {
      MulStep(Div(y, f), Div(x, f), f);
    }
  }

  lemma DivGap(x: nat, y: nat, f: nat)
    requires f > 0 && x + f <= y
    ensures Div(x, f) < Div(y, f)
  {
    hide Div, Mod;
    DivMod(x, f);
    DivUnique(x + f, f, Div(x, f) + 1, Mod(x, f)) by { OneMore(Div(x, f), f); }
    DivMonotone(x + f, y, f);
  }

  lemma DivBelow(x: nat, k: nat, f: nat)
    requires f > 0 && x < k * f
    ensures Div(x, f) < k
  {
    hide Div, Mod;
    DivMod(x, f);
    if Div(x, f) > k {
      MulStep(k, Div(x, f), f);
    }
  }

  lemma OneMore(d: nat, f: nat)
    ensures (d + 1) * f == d * f + f
  {
  }

  lemma ModUnique(q: nat, n: nat, r: nat)
    requires r < n
    ensures (q * n + r) % n == r
  {
    DivUnique(q * n + r, n, q, r);
  }
}
