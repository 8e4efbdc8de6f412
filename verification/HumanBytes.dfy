/** The byte formatters: the unit loop shared by `humanBytes` and `human`, on
    64-bit integers, up to the final float formatting. */
module HumanBytes {

  const MAX_INT64 := 0x7fff_ffff_ffff_ffff
  const MIN_INT64 := -0x8000_0000_0000_0000

  const UNITS := "KMGTPE"

  newtype int64 = x | MIN_INT64 <= x <= MAX_INT64

  /** What is printed: a plain count, or the quotient amount / div with a unit. */
  datatype Text = Plain(bytes: int) | Scaled(minus: bool, amount: int, div: int, suffix: char)

  function Pow1024(n: nat): int {
    if n == 0 then 1 else 1024 * Pow1024(n - 1)
  }

  /** `exp` is the right unit for `b`: 1024^(exp+1) <= b < 1024^(exp+2). */
  predicate InUnit(b: int, exp: nat) {
    Pow1024(exp + 1) <= b < Pow1024(exp + 2)
  }

  lemma {:induction false} PowGrows(m: nat, n: nat)
    requires m <= n
    ensures 0 < Pow1024(m) <= Pow1024(n)
    decreases n
  {
    if n > 0 {
      if m < n {
        PowGrows(m, n - 1);
      } else {
        PowGrows(m - 1, n - 1);
      }
    }
  }

  lemma Pow7()
    ensures Pow1024(7) > MAX_INT64 && Pow1024(1) == 1024
  {
    assert Pow1024(1) == 1024 && Pow1024(2) == 0x10_0000 && Pow1024(3) == 0x4000_0000;
    assert Pow1024(4) == 0x100_0000_0000 && Pow1024(5) == 0x4_0000_0000_0000;
    assert Pow1024(6) == 0x1000_0000_0000_0000;
  }

  /** Every count from 1024 up has one unit, among the six letters. */
  lemma UnitUnique(b: int, e: nat, f: nat)
    requires InUnit(b, e) && InUnit(b, f)
    ensures e == f
  {
    if e < f {
      PowGrows(e + 2, f + 1);
    } else if f < e {
      PowGrows(f + 2, e + 1);
    }
  }

  lemma UnitInRange(b: int, e: nat)
    requires InUnit(b, e) && b <= MAX_INT64
    ensures e < |UNITS|
  {
    if e >= 6 {
      Pow7();
      PowGrows(7, e + 1);
    }
  }

  /** Go's `b / 1024`, which truncates toward zero. */
  function Quotient(b: int64): int64 {
    if b >= 0 then b / 1024 else (b + 1023) / 1024
  }

  /** The unit loop: `div` stays within int64 because it never exceeds `b`. Below
      1024, negative counts included, its body never runs. */
  method UnitLoop(b: int64) returns (div: int64, exp: nat)
    ensures b >= 1024 ==> InUnit(b as int, exp) && div as int == Pow1024(exp + 1) && exp < |UNITS|
    ensures b < 1024 ==> div == 1024 && exp == 0
  {
    div, exp := 1024, 0;
    var n := Quotient(b);
    assert Pow1024(1) == 1024 && Pow1024(2) == 1024 * 1024;
    if b < 1024 {
      assert n < 1024;
    }
    while n >= 1024
      invariant b < 1024 ==> n < 1024 && div == 1024 && exp == 0
      invariant b >= 1024 ==> n >= 1 && div as int == Pow1024(exp + 1)
      invariant b >= 1024 ==> n as int * div as int <= b as int < (n as int + 1) * div as int
      decreases n
    {
      Rescale(b as int, n as int, div as int);
      FitsBelow(b as int, n as int, div as int);
      div := div * 1024;
      exp := exp + 1;
      n := Quotient(n);
    }
    if b >= 1024 {
      FinalUnit(b as int, n as int, div as int);
      assert Pow1024(exp + 2) == 1024 * Pow1024(exp + 1);
      UnitInRange(b as int, exp);
    }
  }

  lemma FitsBelow(b: int, n: int, div: int)
    requires n >= 1024 && div > 0 && n * div <= b
    ensures 1024 * div <= b
  {
  }

  lemma FinalUnit(b: int, n: int, div: int)
    requires 1 <= n < 1024 && div > 0 && n * div <= b < (n + 1) * div
    ensures div <= b < 1024 * div
  {
    assert (n + 1) * div <= 1024 * div;
  }

  lemma Rescale(b: int, n: int, div: int)
    requires n >= 1024 && div > 0 && n * div <= b < (n + 1) * div
    ensures var m := n / 1024;
      m >= 1 && m * (1024 * div) <= b < (m + 1) * (1024 * div)
  {
    var m := n / 1024;
    assert 1024 * m <= n && n + 1 <= 1024 * (m + 1);
    MulLe(1024 * m, n, div);
    MulLe(n + 1, 1024 * (m + 1), div);
    assert 1024 * m * div == m * (1024 * div) && 1024 * (m + 1) * div == (m + 1) * (1024 * div);
  }

  lemma MulLe(a: int, b: int, d: int)
    requires a <= b && d >= 0
    ensures a * d <= b * d
  {
  }

  /** The unit of a count of at least 1024. */
  ghost function UnitOf(b: int): (exp: nat)
    requires b >= 1024
    ensures InUnit(b, exp)
  {
    UnitExists(b, 0);
    var e: nat :| InUnit(b, e);
    e
  }

  lemma {:induction false} UnitExists(b: int, from: nat)
    requires Pow1024(from + 1) <= b
    ensures exists e: nat :: InUnit(b, e)
    decreases b - Pow1024(from + 1)
  {
    PowGrows(0, from);
    if b < Pow1024(from + 2) {
      assert InUnit(b, from);
    } else {
      UnitExists(b, from + 1);
    }
  }

  /** Larger counts never print as less: the unit, then the whole part, grow. */
  lemma UnitsAreMonotone(a: int, b: int)
    requires 1024 <= a <= b
    ensures UnitOf(a) < UnitOf(b)
      || (UnitOf(a) == UnitOf(b) && a / Pow1024(UnitOf(a) + 1) <= b / Pow1024(UnitOf(b) + 1))
  {
    var e, f := UnitOf(a), UnitOf(b);
    PowGrows(0, e + 1);
    if f < e {
      PowGrows(f + 2, e + 1);
    } else if e == f {
      DivMonotone(a, b, Pow1024(e + 1));
    }
  }

  lemma DivMonotone(a: int, b: int, d: int)
    requires a <= b && d > 0
    ensures a / d <= b / d
  {
    if a / d > b / d {
      MulLe(b / d + 1, a / d, d);
    }
  }

  ghost function ScaledText(minus: bool, b: int): Text
    requires 1024 <= b <= MAX_INT64
  {
    UnitInRange(b, UnitOf(b));
    Scaled(minus, b, Pow1024(UnitOf(b) + 1), UNITS[UnitOf(b)])
  }

  /** The six units: divisor, letter and range. */
  predicate PrintedIn(t: Text, minus: bool, b: int) {
    if b < 0x10_0000 then t == Scaled(minus, b, 0x400, 'K')
    else if b < 0x4000_0000 then t == Scaled(minus, b, 0x10_0000, 'M')
    else if b < 0x100_0000_0000 then t == Scaled(minus, b, 0x4000_0000, 'G')
    else if b < 0x4_0000_0000_0000 then t == Scaled(minus, b, 0x100_0000_0000, 'T')
    else if b < 0x1000_0000_0000_0000 then t == Scaled(minus, b, 0x4_0000_0000_0000, 'P')
    else t == Scaled(minus, b, 0x1000_0000_0000_0000, 'E')
  }

  lemma Powers()
    ensures Pow1024(1) == 0x400 && Pow1024(2) == 0x10_0000 && Pow1024(3) == 0x4000_0000
    ensures Pow1024(4) == 0x100_0000_0000 && Pow1024(5) == 0x4_0000_0000_0000
    ensures Pow1024(6) == 0x1000_0000_0000_0000 && Pow1024(7) > MAX_INT64
  {
    Pow7();
    assert Pow1024(2) == 1024 * Pow1024(1) && Pow1024(3) == 1024 * Pow1024(2);
    assert Pow1024(4) == 1024 * Pow1024(3) && Pow1024(5) == 1024 * Pow1024(4);
    assert Pow1024(6) == 1024 * Pow1024(5);
  }

  lemma UnitTable(minus: bool, b: int)
    requires 1024 <= b <= MAX_INT64
    ensures PrintedIn(ScaledText(minus, b), minus, b)
  {
    Powers();
    var e: nat := if b < 0x10_0000 then 0 else if b < 0x4000_0000 then 1 else if b < 0x100_0000_0000 then 2
      else if b < 0x4_0000_0000_0000 then 3 else if b < 0x1000_0000_0000_0000 then 4 else 5;
    assert InUnit(b, e);
    UnitUnique(b, e, UnitOf(b));
  }

  /** `humanBytes` of cmd/ssm and internal/api. */
  method ShowBytes(b: int64) returns (t: Text)
    ensures t == if b < 1024 then Plain(b as int) else ScaledText(false, b as int)
    ensures b >= 1024 ==> PrintedIn(t, false, b as int)
  {
    if b < 1024 {
      return Plain(b as int);
    }
    UnitTable(false, b as int);
    var div, exp := UnitLoop(b);
    UnitUnique(b as int, exp, UnitOf(b as int));
    return Scaled(false, b as int, div as int, UNITS[exp]);
  }

  /** Two's-complement negation, which leaves the smallest int64 unchanged. */
  function Negate(b: int64): int64 {
    if b as int == MIN_INT64 then b else -b
  }

  /** `human` of internal/aireview: right for every int64 but the smallest, for
      which the negation wraps, the loop is skipped and "--...KB" comes out. */
  method ShowSigned(b: int64) returns (t: Text)
    ensures -1024 < b < 1024 ==> t == Plain(b as int)
    ensures b >= 1024 ==> t == ScaledText(false, b as int)
    ensures MIN_INT64 < b as int <= -1024 ==> t == ScaledText(true, -(b as int))
    ensures b >= 1024 ==> PrintedIn(t, false, b as int)
    ensures MIN_INT64 < b as int <= -1024 ==> PrintedIn(t, true, -(b as int))
    ensures b as int == MIN_INT64 ==> t == Scaled(true, MIN_INT64, 1024, 'K')
  {
    if b > -1024 && b < 1024 {
      return Plain(b as int);
    }
    var neg := b < 0;
    var a := if neg then Negate(b) else b;
    var div, exp := UnitLoop(a);
    if a >= 1024 {
      UnitUnique(a as int, exp, UnitOf(a as int));
      UnitTable(neg, a as int);
    }
    return Scaled(neg, a as int, div as int, UNITS[exp]);
  }
}
