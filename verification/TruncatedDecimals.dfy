/** Decimal arithmetic that keeps p significant digits and cuts off the rest, on non-negative numbers.
    Every decimal is a real number; an operation is the exact one, followed by a cut. */
module TruncatedDecimals {
  import opened DecimalText

  type Decimal = x: real | x >= 0.0 witness 0.0

  /** How far x lies above, and below, the numbers with p digits before the point. */
  function Over(x: Decimal, p: nat): nat {
    if x >= Pow10(p) as real then x.Floor else 0
  }

  function Under(x: Decimal, p: nat): nat
    requires p > 0
  {
    if 0.0 < x < Pow10(p - 1) as real then
      TimesAtLeast(Pow10(p - 1) as real, x);
      (Pow10(p - 1) as real / x).Floor
    else 0
  }

  lemma TimesAtLeast(w: real, x: real)
    requires 0.0 < x <= w
    ensures w / x >= 1.0
  {
    var y := w / x;
    assert y * x == w && (y - 1.0) * x == w - x;
    Signs(y - 1.0, x);
  }

  lemma Signs(z: real, x: real)
    requires x > 0.0
    ensures z < 0.0 ==> z * x < 0.0
    ensures z > 0.0 ==> z * x > 0.0
    ensures z == 0.0 ==> z * x == 0.0
  {}

  lemma TenthShrinks(y: real)
    requires y >= 1.0
    ensures 0 <= (y / 10.0).Floor < y.Floor
  {}

  lemma UnderShrinks(x: Decimal, p: nat)
    requires p > 0 && 0.0 < x < Pow10(p - 1) as real
    ensures Over(10.0 * x, p) == 0 == Over(x, p)
    ensures Under(10.0 * x, p) < Under(x, p)
  {
    var w := Pow10(p - 1) as real;
    assert Pow10(p) as real == 10.0 * w;
    TimesAtLeast(w, x);
    TenthShrinks(w / x);
    TenfoldDivisor(w, x);
  }

  lemma TenfoldDivisor(w: real, x: real)
    requires x > 0.0
    ensures w / (10.0 * x) == (w / x) / 10.0
  {
    var y := w / x;
    assert y * x == w;
    assert (y / 10.0) * (10.0 * x) == w;
  }

  /** x cut to p significant digits. */
  function Cut(x: Decimal, p: nat): (r: Decimal)
    requires p > 0
    decreases Over(x, p), Under(x, p)
  {
    if x == 0.0 then 0.0
    else if x >= Pow10(p) as real then
      TenthShrinks(x);
      10.0 * Cut(x / 10.0, p)
    else if x < Pow10(p - 1) as real then
      UnderShrinks(x, p);
      Cut(10.0 * x, p) / 10.0
    else x.Floor as real
  }

  lemma CutAbove(x: Decimal, p: nat)
    requires p > 0 && x >= Pow10(p) as real
    ensures Cut(x, p) == 10.0 * Cut(x / 10.0, p)
  {}

  lemma CutUnder(x: Decimal, p: nat)
    requires p > 0 && 0.0 < x < Pow10(p - 1) as real
    ensures Cut(x, p) == Cut(10.0 * x, p) / 10.0
  {
    PowerGrows(p);
  }

  lemma CutInside(x: Decimal, p: nat)
    requires p > 0 && Pow10(p - 1) as real <= x < Pow10(p) as real
    ensures Cut(x, p) == x.Floor as real
  {}

  lemma PowerGrows(p: nat)
    requires p > 0
    ensures Pow10(p) == 10 * Pow10(p - 1)
  {}

  /** A cut takes away less than one unit of the last digit kept. */
  lemma {:induction false} CutError(x: Decimal, p: nat)
    requires p > 0
    ensures Cut(x, p) <= x
    ensures Pow10(p - 1) as real * (x - Cut(x, p)) <= Cut(x, p)
    ensures x > 0.0 ==> Cut(x, p) > 0.0
    ensures x == 0.0 ==> Cut(x, p) == 0.0
    decreases Over(x, p), Under(x, p)
  {
    hide Cut, Over, Under, Pow10;
    var w := Pow10(p - 1) as real;
    if x == 0.0 {
      CutZero(p);
      assert w * (0.0 - 0.0) == 0.0;
    } else if x >= Pow10(p) as real {
      assert Over(x / 10.0, p) < Over(x, p) by { OverShrinks(x, p); }
      CutError(x / 10.0, p);
      CutAbove(x, p);
      Tenfold(w, x / 10.0, Cut(x / 10.0, p));
    } else if x < w {
      UnderShrinks(x, p);
      CutError(10.0 * x, p);
      CutUnder(x, p);
      Tenfold(w, x, Cut(x, p));
    } else {
      CutInside(x, p);
      UnitError(w, x, Pow10(p - 1));
    }
  }

  lemma CutNotNegative(x: Decimal, p: nat)
    requires p > 0
    ensures Cut(x, p) >= 0.0
  {}

  /** A smaller number is cut to no more. */
  lemma {:induction false} CutMonotone(x: Decimal, y: Decimal, p: nat)
    requires p > 0 && x <= y
    ensures Cut(x, p) <= Cut(y, p)
    decreases Over(y, p), Under(x, p)
  {
    hide Cut, Over, Under, Pow10;
    PowerGrows(p);
    if x == 0.0 {
      CutZero(p);
    } else if y >= Pow10(p) as real {
      assert Over(y / 10.0, p) < Over(y, p) by { OverShrinks(y, p); }
      CutMonotone(x / 10.0, y / 10.0, p);
      CutTenth(x, p);
      CutTenth(y, p);
    } else if x < Pow10(p - 1) as real {
      if y < Pow10(p - 1) as real {
        UnderShrinks(x, p);
        UnderShrinks(y, p);
        CutMonotone(10.0 * x, 10.0 * y, p);
        CutTenfold(x, p);
        CutTenfold(y, p);
      } else {
        CutError(x, p);
        CutInside(y, p);
        WholeBelow(Pow10(p - 1), y);
      }
    } else {
      CutInside(x, p);
      CutInside(y, p);
      WholeMonotone(x, y);
    }
  }

  lemma WholeMonotone(x: real, y: real)
    requires x <= y
    ensures x.Floor as real <= y.Floor as real
  {
    WholeBelow(x.Floor, y);
  }

  lemma WholeBelow(n: int, y: real)
    requires n as real <= y
    ensures n as real <= y.Floor as real
  {
    var f := y.Floor;
    assert y < f as real + 1.0;
    assert (f + 1) as real == f as real + 1.0;
    assert n < f + 1;
  }

  lemma CutTenth(x: Decimal, p: nat)
    requires p > 0
    ensures Cut(x, p) == 10.0 * Cut(x / 10.0, p)
  {
    hide Cut;
    CutTenfold(x / 10.0, p);
    assert 10.0 * (x / 10.0) == x;
  }

  lemma CutZero(p: nat)
    requires p > 0
    ensures Cut(0.0, p) == 0.0
  {}

  lemma OverShrinks(x: Decimal, p: nat)
    requires p > 0 && x >= Pow10(p) as real
    ensures Over(x / 10.0, p) < Over(x, p)
  {
    TenthShrinks(x);
  }

  lemma Tenfold(w: real, x: real, r: real)
    ensures w * (10.0 * x - 10.0 * r) == 10.0 * (w * (x - r))
  {}

  lemma UnitError(w: real, x: real, n: nat)
    requires n > 0 && w == n as real && x >= w
    ensures w * (x - x.Floor as real) <= x.Floor as real
    ensures x.Floor >= n
  {
    assert x.Floor >= n;
    FractionOf(w, x, x.Floor as real);
  }

  lemma FractionOf(w: real, x: real, f: real)
    requires w > 0.0 && f >= w && 0.0 <= x - f < 1.0
    ensures w * (x - f) <= f
  {
    ScaledFraction(w, x, f, w * x, w * f);
    assert w * (x - f) == w * x - w * f;
  }

  lemma ScaledFraction(w: real, x: real, f: real, wx: real, wf: real)
    requires w > 0.0 && f >= w && 0.0 <= x - f < 1.0 && wx == w * x && wf == w * f
    ensures wx - wf <= f
  {
    var z := 1.0 - (x - f);
    Signs(z, w);
    Expanded(w, x, f);
    Remaining(z * w, w, wx - wf, f);
  }

  lemma Expanded(w: real, x: real, f: real)
    ensures (1.0 - (x - f)) * w == w - (w * x - w * f)
  {}

  lemma Remaining(zw: real, w: real, d: real, f: real)
    requires zw > 0.0 && zw == w - d && f >= w
    ensures d <= f
  {}

  /** A whole number of at most p digits is kept. */
  lemma {:induction false} CutWhole(n: nat, p: nat)
    requires p > 0 && n < Pow10(p)
    ensures Cut(n as real, p) == n as real
    decreases Pow10(p) - n
  {
    hide Cut, Pow10;
    if n == 0 {
      CutZero(p);
    } else if n < Pow10(p - 1) {
      PowerGrows(p);
      CutWhole(10 * n, p);
      CutUnder(n as real, p);
    } else {
      CutInside(n as real, p);
    }
  }

  /** Of a number of p + 1 digits the last one is cut. */
  lemma CutLastDigit(n: nat, d: nat, p: nat)
    requires p > 0 && Pow10(p - 1) <= n < Pow10(p) && d < 10
    ensures Cut((10 * n + d) as real, p) == (10 * n) as real
  {
    hide Cut, Pow10;
    PowerGrows(p);
    var x := (10 * n + d) as real;
    assert x / 10.0 == n as real + d as real / 10.0;
    CutAbove(x, p);
    CutInside(x / 10.0, p);
  }

  /** Multiplying by ten moves the cut along. */
  lemma CutTenfold(x: Decimal, p: nat)
    requires p > 0
    ensures Cut(10.0 * x, p) == 10.0 * Cut(x, p)
  {
    hide Cut, Pow10;
    PowerGrows(p);
    if x == 0.0 {
      CutZero(p);
    } else if 10.0 * x >= Pow10(p) as real {
      CutAbove(10.0 * x, p);
    } else {
      CutUnder(x, p);
    }
  }

  /** A whole number of at most p digits, with zeros behind it, is kept. */
  lemma {:induction false} CutWithZeros(n: nat, k: nat, p: nat)
    requires p > 0 && n < Pow10(p)
    ensures Cut((n * Pow10(k)) as real, p) == (n * Pow10(k)) as real
  {
    hide Cut;
    if k == 0 {
      CutWhole(n, p);
    } else {
      CutWithZeros(n, k - 1, p);
      assert n * Pow10(k) == 10 * (n * Pow10(k - 1));
      CutTenfold((n * Pow10(k - 1)) as real, p);
    }
  }

  /** x is a whole number n of units of 10^-j. */
  ghost predicate InUnits(x: real, n: nat, j: nat) { x * Pow10(j) as real == n as real }

  lemma UnitsTenfold(x: real, n: nat, j: nat)
    ensures InUnits(10.0 * x, n, j) <==> InUnits(x, n, j + 1)
    ensures InUnits(x, n, j) ==> InUnits(10.0 * x, 10 * n, j)
  {
    assert Pow10(j + 1) as real == 10.0 * Pow10(j) as real;
    assert (10.0 * x) * Pow10(j) as real == 10.0 * (x * Pow10(j) as real);
  }

  /** A number written with at most p digits, after the point too, is kept. */
  lemma {:induction false} CutKeeps(x: Decimal, n: nat, j: nat, p: nat)
    requires p > 0 && InUnits(x, n, j) && n < Pow10(p)
    ensures Cut(x, p) == x
    decreases j
  {
    hide Cut, Pow10, InUnits;
    if j == 0 {
      assert x == n as real by { Ones(x, n); }
      CutWhole(n, p);
    } else {
      UnitsTenfold(x, n, j - 1);
      CutKeeps(10.0 * x, n, j - 1, p);
      CutTenfold(x, p);
    }
  }

  lemma Ones(x: real, n: nat)
    requires InUnits(x, n, 0)
    ensures x == n as real
  {}

  /** A cut number is whole, or has at most p digits. */
  lemma {:induction false} CutForm(x: Decimal, p: nat) returns (n: nat, j: nat)
    requires p > 0
    ensures InUnits(Cut(x, p), n, j) && (j == 0 || n < Pow10(p))
    decreases Over(x, p), Under(x, p)
  {
    hide Cut, Pow10, InUnits, Over, Under;
    PowerGrows(p);
    if x == 0.0 {
      CutZero(p);
      n, j := 0, 0;
      IsWhole(0.0, 0);
    } else if x >= Pow10(p) as real {
      assert Over(x / 10.0, p) < Over(x, p) by { OverShrinks(x, p); }
      n, j := CutForm(x / 10.0, p);
      CutTenth(x, p);
      UnitsTenfold(Cut(x / 10.0, p), n, j);
      if j > 0 { UnitsTenfold(Cut(x / 10.0, p), n, j - 1); j := j - 1; } else { n := 10 * n; }
    } else if x < Pow10(p - 1) as real {
      UnderShrinks(x, p);
      n, j := CutForm(10.0 * x, p);
      CutTenfold(x, p);
      UnitsTenfold(Cut(x, p), n, j);
      CutError(10.0 * x, p);
      if j == 0 { Ones(Cut(10.0 * x, p), n); }
      j := j + 1;
    } else {
      CutInside(x, p);
      n, j := x.Floor, 0;
      IsWhole(x.Floor as real, x.Floor);
    }
  }

  lemma IsWhole(x: real, n: nat)
    requires x == n as real
    ensures InUnits(x, n, 0)
  {}

  /** What a cut number has after the point is not cut again. */
  lemma FractionKept(x: Decimal, p: nat)
    requires p > 0
    ensures var q := Cut(x, p); Cut(q - q.Floor as real, p) == q - q.Floor as real
  {
    hide Cut, Pow10;
    var q := Cut(x, p);
    var n, j := CutForm(x, p);
    if j == 0 {
      Ones(q, n);
      CutZero(p);
    } else {
      var m := FractionUnits(q, n, j);
      CutKeeps(q - q.Floor as real, m, j, p);
    }
  }

  lemma FractionUnits(q: Decimal, n: nat, j: nat) returns (m: nat)
    requires InUnits(q, n, j)
    ensures InUnits(q - q.Floor as real, m, j) && m <= n
  {
    hide Pow10;
    var u := Pow10(j);
    var f := q.Floor;
    assert (f * u) as real == f as real * u as real;
    assert (q - f as real) * u as real == q * u as real - f as real * u as real;
    assert (q - f as real) * u as real >= 0.0;
    assert f * u >= 0;
    m := n - f * u;
  }
}
