/**
 * Queue caps in the group form: `mbpsInputToKbps` and `kbpsToMbpsInput` of
 * `internal/app/pcq_handlers.go`, with exact numbers for floats. An empty form field is None.
 */
module Caps {
  import opened Wrappers

  /** The displays of all positive caps are whole multiples of 10^-7 Mb/s. */
  const GRID := 1000_0000

  function Pow10(n: nat): (p: nat)
    ensures p > 0
  {
    if n == 0 then 1 else 10 * Pow10(n - 1)
  }

  function MbpsInputToKbps(form: Option<real>): Option<int>
  {
    if form.None? || form.value <= 0.0 then None
    else
      var k := (form.value * 1024.0 + 0.5).Floor;
      if k <= 0 then None else Some(k)
  }

  /** An entry is a cap exactly from half a unit on, and the cap stored is the nearest, halves up. */
  lemma SavedIsNearest(v: real)
    ensures var k := MbpsInputToKbps(Some(v));
            (k.Some? <==> v * 1024.0 >= 0.5)
            && (k.Some? ==> k.value > 0 && k.value as real - 0.5 <= v * 1024.0 < k.value as real + 0.5)
  {
    var y := v * 1024.0 + 0.5;
    assert y.Floor as real <= y < y.Floor as real + 1.0;
  }

  // ---------- The four-digit display ----------

  /** 1024 times 10^s on the grid: one unit in the last digit, times 1024. */
  function Unit(s: nat): (u: nat)
    ensures u > 0
  {
    1024 * Pow10(s)
  }

  /** The least scale from `s` on at which `n` has four digits before the point. */
  function Scale(n: nat, s: nat): (r: nat)
    requires n >= 1000 * Unit(s)
    ensures 1000 * Unit(r) <= n < 10000 * Unit(r)
    decreases n - Unit(s)
  {
    if n < 10000 * Unit(s) then s else Scale(n, s + 1)
  }

  /** The multiple of `unit` nearest to `n`, the even one of two: two units off until under two are left. */
  function RoundHalfEven(n: nat, unit: nat): nat
    requires unit > 0
  {
    if n >= 2 * unit then 2 + RoundHalfEven(n - 2 * unit, unit)
    else if 2 * n <= unit then 0
    else if 2 * n < 3 * unit then 1
    else 2
  }

  /** The four digits that `%.4g` prints for `k` / 1024, and their scale. */
  function Digits(k: nat): (nat, nat)
    requires k > 0
  {
    var s := Scale(k * GRID, 0);
    (RoundHalfEven(k * GRID, Unit(s)), s)
  }

  function KbpsToMbpsInput(v: Option<int>): Option<real>
  {
    if v.None? || v.value <= 0 then None
    else
      var d := Digits(v.value);
      Some((d.0 * Pow10(d.1)) as real / GRID as real)
  }

  /** Opening the form and saving it unchanged. */
  function Resave(v: Option<int>): Option<int>
  {
    MbpsInputToKbps(KbpsToMbpsInput(v))
  }

  // ---------- Rounding on the grid ----------

  /** `w` on the grid of 1024ths rounds to `k`. */
  predicate RoundsTo(w: nat, k: int)
  {
    2 * k * GRID - GRID <= 2 * w < 2 * k * GRID + GRID
  }

  lemma FloorOf(y: real, k: int)
    requires k as real <= y < k as real + 1.0
    ensures y.Floor == k
  {
  }

  /** Saving a value on the grid. */
  lemma SaveOnGrid(d: nat, k: int)
    requires RoundsTo(1024 * d, k)
    ensures MbpsInputToKbps(Some(d as real / GRID as real)) == if k > 0 then Some(k) else None
  {
    var v := d as real / GRID as real;
    assert v * GRID as real == d as real;
    FloorOf(v * 1024.0 + 0.5, k);
  }

  lemma RoundsToSomething(w: nat) returns (k: nat)
    ensures RoundsTo(w, k)
  {
    k := (2 * w + GRID) / (2 * GRID);
  }

  // ---------- The display is the nearest four-digit decimal ----------

  function Distance(x: int, y: int): nat
  {
    if x < y then y - x else x - y
  }

  lemma Multiples(a: nat, b: nat, unit: nat)
    ensures a <= b ==> a * unit <= b * unit
    ensures (a + 2) * unit == a * unit + 2 * unit
  {
    assert a <= b ==> (b - a) * unit >= 0;
  }

  lemma {:induction false} RoundIsNearest(n: nat, unit: nat, m: nat)
    requires unit > 0
    ensures Distance(RoundHalfEven(n, unit) * unit, n) <= Distance(m * unit, n)
    ensures 2 * Distance(RoundHalfEven(n, unit) * unit, n) <= unit
  {
    if n >= 2 * unit {
      var rest := RoundHalfEven(n - 2 * unit, unit);
      Multiples(rest, 0, unit);
      if m >= 2 {
        RoundIsNearest(n - 2 * unit, unit, m - 2);
        Multiples(m - 2, 0, unit);
      } else {
        RoundIsNearest(n - 2 * unit, unit, 0);
      }
    } else {
      Multiples(2, m, unit);
    }
  }

  lemma TwoMore(r: nat, unit: nat)
    ensures (2 + r) * unit == 2 * unit + r * unit
  {
  }

  lemma Once(r: nat, unit: nat)
    ensures r == 1 ==> r * unit == unit
  {
  }

  /** Between two equally near multiples the even one is taken. */
  lemma {:induction false} TiesGoToEven(n: nat, unit: nat)
    requires unit > 0 && 2 * Distance(RoundHalfEven(n, unit) * unit, n) == unit
    ensures RoundHalfEven(n, unit) % 2 == 0
  {
    if n >= 2 * unit {
      TwoMore(RoundHalfEven(n - 2 * unit, unit), unit);
      TiesGoToEven(n - 2 * unit, unit);
    } else {
      TwoMore(0, unit);
      Once(RoundHalfEven(n, unit), unit);
    }
  }

  /** A decimal of a greater scale is a multiple of a smaller unit. */
  lemma {:induction false} Rescale(m: nat, t: nat, s: nat) returns (r: nat)
    requires s <= t
    ensures m * Unit(t) == r * Unit(s)
    decreases t
  {
    if s == t {
      r := m;
    } else {
      r := Rescale(10 * m, t - 1, s);
      var u := Unit(t - 1);
      assert m * (10 * u) == 10 * m * u;
    }
  }

  lemma {:induction false} UnitGrows(t: nat, s: nat)
    requires t < s
    ensures 10 * Unit(t) <= Unit(s)
  {
    if t < s - 1 {
      UnitGrows(t, s - 1);
    }
  }

  /** No decimal of at most four digits is nearer to the cap than the display. */
  lemma DisplayIsNearest(k: nat, m: nat, t: nat)
    requires k > 0 && m <= 9999
    ensures var d := Digits(k);
            Distance(d.0 * Unit(d.1), k * GRID) <= Distance(m * Unit(t), k * GRID)
  {
    var n, s := k * GRID, Digits(k).1;
    if s <= t {
      var r := Rescale(m, t, s);
      RoundIsNearest(n, Unit(s), r);
    } else {
      UnitGrows(t, s);
      RoundIsNearest(n, Unit(s), 1000);
      Multiples(m, 9999, Unit(t));
    }
  }

  /** Halves never occur: 1024 times a grid value is a multiple of 128, half a grid step is not. */
  lemma NoHalves(d: nat, k: nat)
    ensures 2 * Distance(1024 * d, k * GRID) != GRID
  {
    assert k * GRID == 128 * (k * 78125);
  }

  lemma UnitProduct(m: nat, s: nat)
    ensures m * Unit(s) == 1024 * (m * Pow10(s))
  {
    var p := Pow10(s);
    assert m * (1024 * p) == 1024 * (m * p);
  }

  lemma NearerRounds(w: nat, typed: nat, k: nat)
    requires RoundsTo(typed, k) && Distance(w, k * GRID) <= Distance(typed, k * GRID)
    requires 2 * Distance(w, k * GRID) != GRID
    ensures RoundsTo(w, k)
  {
  }

  /** Saving what the form shows for `k`. */
  lemma SavesShown(k: nat, shown: nat, r: nat)
    requires k > 0 && shown == Digits(k).0 * Pow10(Digits(k).1) && RoundsTo(1024 * shown, r)
    ensures Resave(Some(k)) == if r > 0 then Some(r) else None
  {
    SaveOnGrid(shown, r);
  }

  lemma DisplayRoundsBack(k: nat, m: nat, t: nat)
    requires k > 0 && m <= 9999 && RoundsTo(m * Unit(t), k)
    ensures Resave(Some(k)) == Some(k)
  {
    var d := Digits(k);
    var shown := d.0 * Pow10(d.1);
    DisplayIsNearest(k, m, t);
    UnitProduct(d.0, d.1);
    NoHalves(shown, k);
    NearerRounds(1024 * shown, m * Unit(t), k);
    SavesShown(k, shown, k);
  }

  // ---------- Typed caps ----------

  function Pow10Real(e: int): real
    decreases if e < 0 then -e else e
  {
    if e == 0 then 1.0 else if e > 0 then 10.0 * Pow10Real(e - 1) else Pow10Real(e + 1) / 10.0
  }

  /** A typed cap of at most four significant digits. */
  function Typed(m: nat, e: int): real
  {
    m as real * Pow10Real(e)
  }

  lemma {:induction false} RealPower(e: int)
    requires e >= -7
    ensures Pow10Real(e) * GRID as real == Pow10(e + 7) as real
    decreases e + 7
  {
    if e == -7 {
      assert Pow10Real(-7) * 10.0 == Pow10Real(-6) && Pow10Real(-6) * 10.0 == Pow10Real(-5);
      assert Pow10Real(-5) * 10.0 == Pow10Real(-4) && Pow10Real(-4) * 10.0 == Pow10Real(-3);
      assert Pow10Real(-3) * 10.0 == Pow10Real(-2) && Pow10Real(-2) * 10.0 == Pow10Real(-1);
      assert Pow10Real(-1) * 10.0 == 1.0;
    } else {
      RealPower(e - 1);
      assert Pow10Real(e) == 10.0 * Pow10Real(e - 1);
    }
  }

  lemma {:induction false} TinyPower(e: int)
    requires e <= -8
    ensures 0.0 < Pow10Real(e) <= 0.00000001
    decreases -e
  {
    if e == -8 {
      RealPower(-7);
      assert Pow10Real(-8) * 10.0 == Pow10Real(-7);
    } else {
      TinyPower(e + 1);
    }
  }

  lemma ScaledBy(m: real, power: real, grid: real, p: real)
    requires grid > 0.0 && power * grid == p
    ensures m * power == m * p / grid
  {
    assert m * power * grid == m * p;
  }

  lemma RealProduct(m: nat, p: nat)
    ensures (m * p) as real == m as real * p as real
  {
  }

  lemma OnGrid(m: nat, p: nat, power: real)
    requires power * GRID as real == p as real
    ensures m as real * power == (m * p) as real / GRID as real
  {
    RealProduct(m, p);
    ScaledBy(m as real, power, GRID as real, p as real);
  }

  lemma TypedOnGrid(m: nat, e: int)
    requires e >= -7
    ensures Typed(m, e) == (m * Pow10(e + 7)) as real / GRID as real
  {
    RealPower(e);
    TypedTimes(m, e, Pow10(e + 7));
  }

  lemma TypedTimes(m: nat, e: int, p: nat)
    requires Pow10Real(e) * GRID as real == p as real
    ensures Typed(m, e) == (m * p) as real / GRID as real
  {
    OnGrid(m, p, Pow10Real(e));
  }

  /** A typed cap below the grid rounds to zero. */
  lemma TinyIsUnlimited(m: nat, e: int)
    requires m <= 9999 && e < -7
    ensures MbpsInputToKbps(Some(Typed(m, e))) == None
  {
    TinyPower(e);
    assert m as real * Pow10Real(e) <= 9999.0 * Pow10Real(e);
    FloorOf(Typed(m, e) * 1024.0 + 0.5, 0);
  }

  /** The stored cap for a typed one, seen on the grid. */
  lemma TypedRoundsTo(m: nat, e: int) returns (k: nat)
    requires m <= 9999 && e >= -7
    ensures RoundsTo(m * Unit(e + 7), k)
    ensures MbpsInputToKbps(Some(Typed(m, e))) == if k > 0 then Some(k) else None
  {
    var d := m * Pow10(e + 7);
    assert m * Unit(e + 7) == 1024 * d;
    k := RoundsToSomething(1024 * d);
    TypedOnGrid(m, e);
    SaveOnGrid(d, k);
  }

  /** Opening the form and saving it keeps every cap that was typed with at most four significant digits. */
  lemma TypedCapIsStable(m: nat, e: int)
    requires m <= 9999
    ensures var k := MbpsInputToKbps(Some(Typed(m, e)));
            Resave(k) == k
  {
    if e < -7 {
      TinyIsUnlimited(m, e);
    } else {
      var k := TypedRoundsTo(m, e);
      if k > 0 {
        DisplayRoundsBack(k, m, e + 7);
      }
    }
  }

  /** The display is itself a cap of at most four significant digits. */
  lemma DisplayIsTyped(k: nat) returns (m: nat, e: int)
    requires k > 0
    ensures m <= 9999 && KbpsToMbpsInput(Some(k)) == Some(Typed(m, e))
  {
    var d := Digits(k);
    RoundStaysClose(k * GRID, Unit(d.1));
    var t: nat;
    m, t := Carried(d.0, d.1);
    e := t - 7;
    TypedOnGrid(m, e);
  }

  lemma Carried(d: nat, s: nat) returns (m: nat, t: nat)
    requires d <= 10000
    ensures m <= 9999 && m * Pow10(t) == d * Pow10(s)
  {
    if d <= 9999 {
      m, t := d, s;
    } else {
      m, t := 1000, s + 1;
    }
  }

  lemma RoundStaysClose(n: nat, unit: nat)
    requires unit > 0 && n < 10000 * unit
    ensures RoundHalfEven(n, unit) <= 10000
  {
    RoundIsNearest(n, unit, 0);
    Multiples(10001, RoundHalfEven(n, unit), unit);
  }

  /** A stored cap survives exactly when some typed cap of at most four digits would store it. */
  lemma StableIffTyped(k: nat)
    requires k > 0
    ensures Resave(Some(k)) == Some(k)
       <==> exists m: nat, e: int :: m <= 9999 && MbpsInputToKbps(Some(Typed(m, e))) == Some(k)
  {
    var m, e := DisplayIsTyped(k);
    forall m: nat, e: int | m <= 9999 && MbpsInputToKbps(Some(Typed(m, e))) == Some(k)
      ensures Resave(Some(k)) == Some(k)
    {
      TypedCapIsStable(m, e);
    }
  }

  /** Whatever was stored, the second unchanged save keeps what the first one stored. */
  lemma SecondSaveChangesNothing(v: Option<int>)
    ensures Resave(Resave(v)) == Resave(v)
  {
    if v.Some? && v.value > 0 {
      var m, e := DisplayIsTyped(v.value);
      TypedCapIsStable(m, e);
    }
  }

  /** A save moves a cap by at most one part in 2000, rounded; caps under 1000 kb/s never move. */
  lemma SaveStaysClose(k: nat)
    requires k > 0
    ensures var r := match Resave(Some(k)) case None => 0 case Some(x) => x;
            2000 * Distance(r, k) <= k + 1000
  {
    var d := Digits(k);
    var shown := d.0 * Pow10(d.1);
    RoundIsNearest(k * GRID, Unit(d.1), 0);
    UnitProduct(d.0, d.1);
    var r := RoundsToSomething(1024 * shown);
    SavesShown(k, shown, r);
    NearRounds(1024 * shown, Unit(d.1), k, r);
  }

  lemma NearRounds(w: nat, unit: nat, k: nat, r: nat)
    requires RoundsTo(w, r) && 2 * Distance(w, k * GRID) <= unit && 1000 * unit <= k * GRID
    ensures 2000 * Distance(r, k) <= k + 1000
  {
  }

  /** A stored cap that an unchanged save alters: 10241 kb/s shows as 10 Mb/s. */
  lemma SaveCanAlter()
    ensures Resave(Some(10241)) == Some(10240)
  {
    var n := 10241 * GRID;
    assert Unit(1) == 10240 && Unit(2) == 102400 && Unit(3) == 1024000;
    assert Unit(4) == 10240000 && Unit(5) == 102400000;
    assert Scale(n, 4) == 5;
    assert Scale(n, 2) == 5;
    assert Scale(n, 0) == 5;
    RoundIsNearest(n, 102400000, 1000);
    assert Digits(10241) == (1000, 5);
    assert Pow10(5) == 100000;
    SaveOnGrid(1000 * 100000, 10240);
  }
}
