/** Rounding up to a multiple. */
module Align {
  import opened Base

  /** The least multiple of `unit` at or above `x`, counted up in steps. */
  function Ceil(x: int, unit: int): int
    requires unit > 0
    decreases x
  {
    if x <= 0 then 0 else unit + Ceil(x - unit, unit)
  }

  predicate Aligned(x: int, unit: int)
    requires unit > 0
  {
    x >= 0 && Ceil(x, unit) == x
  }

  lemma {:induction false} CeilBounds(x: int, unit: int)
    requires unit > 0 && x >= 0
    ensures x <= Ceil(x, unit) < x + unit
    decreases x
  {
    if x > unit { CeilBounds(x - unit, unit); }
  }

  lemma {:induction false} CeilIsAligned(x: int, unit: int)
    requires unit > 0
    ensures Aligned(Ceil(x, unit), unit)
    decreases x
  {
    if x > 0 { CeilIsAligned(x - unit, unit); }
  }

  lemma {:induction false} CeilLeast(x: int, y: int, unit: int)
    requires unit > 0 && x <= y && Aligned(y, unit)
    ensures Ceil(x, unit) <= y
    decreases x
  {
    if x > 0 { CeilLeast(x - unit, y - unit, unit) by { AlignedStep(y, unit); } }
  }

  lemma {:induction false} AlignedStep(y: int, unit: int)
    requires unit > 0 && Aligned(y, unit) && y > 0
    ensures y >= unit && Aligned(y - unit, unit)
  {
    if y > unit {
      assert Ceil(y, unit) == unit + Ceil(y - unit, unit);
    } else {
      assert Ceil(y - unit, unit) == 0;
    }
  }

  /** Adding to an aligned base commutes with rounding. */
  lemma {:induction false} CeilShift(b: int, x: int, unit: int)
    requires unit > 0 && Aligned(b, unit) && x >= 0
    ensures Ceil(b + x, unit) == b + Ceil(x, unit)
    decreases b
  {
    if b > 0 {
      AlignedStep(b, unit);
      CeilShift(b - unit, x, unit);
    }
  }

  lemma AlignedSum(x: int, y: int, unit: int)
    requires unit > 0 && Aligned(x, unit) && y >= 0
    ensures Aligned(x + y, unit) <==> Aligned(y, unit)
  {
    CeilShift(x, y, unit);
  }

  lemma {:induction false} AlignedMod(x: int, unit: int)
    requires unit > 0 && x >= 0
    ensures Aligned(x, unit) <==> x % unit == 0
    decreases x
  {
    if x >= unit {
      AlignedMod(x - unit, unit);
      assert Ceil(x, unit) == unit + Ceil(x - unit, unit);
      ModStep(x, unit);
    } else {
      DivUnique(x, unit, 0, x);
      assert x > 0 ==> Ceil(x, unit) == unit + Ceil(x - unit, unit) && Ceil(x - unit, unit) == 0;
    }
  }

  lemma {:induction false} ModStep(x: int, unit: int)
    requires unit > 0 && x >= unit
    ensures x % unit == (x - unit) % unit && x / unit == (x - unit) / unit + 1
  {
    var q, r := (x - unit) / unit, (x - unit) % unit;
    assert x == (q + 1) * unit + r;
    DivUnique(x, unit, q + 1, r);
  }

  lemma {:induction false} MulAtLeast(n: int, unit: int)
    requires n >= 1 && unit > 0
    ensures n * unit >= unit
  {
    if n > 1 { MulAtLeast(n - 1, unit); }
  }

  lemma SameQuotient(unit: int, q: int, r: int, p: int, s: int)
    requires unit > 0 && 0 <= r < unit && 0 <= s < unit && q * unit + r == p * unit + s
    ensures q == p
  {
    if p < q {
      assert (q - p) * unit == q * unit - p * unit;
      MulAtLeast(q - p, unit);
    } else if q < p {
      assert (p - q) * unit == p * unit - q * unit;
      MulAtLeast(p - q, unit);
    }
  }

  lemma DivUnique(x: int, unit: int, q: int, r: int)
    requires unit > 0 && 0 <= r < unit && x == q * unit + r
    ensures x / unit == q && x % unit == r
  {
    var p := x / unit;
    assert x == p * unit + x % unit;
    SameQuotient(unit, q, r, p, x % unit);
  }

  lemma {:induction false} CeilDiv(x: int, unit: int)
    requires unit > 0 && x >= 0
    ensures Ceil(x, unit) == (x + unit - 1) / unit * unit
    decreases x
  {
    if x == 0 {
      DivUnique(unit - 1, unit, 0, unit - 1);
    } else if x <= unit {
      DivUnique(x + unit - 1, unit, 1, x - 1);
    } else {
      CeilDiv(x - unit, unit);
      ModStep(x + unit - 1, unit);
    }
  }

  /** A multiple of a coarse unit is a multiple of any unit that divides it. */
  lemma {:induction false} AlignedCoarse(x: int, coarse: int, unit: int)
    requires unit > 0 && coarse > 0 && Aligned(coarse, unit) && Aligned(x, coarse)
    ensures Aligned(x, unit)
    decreases x
  {
    if x > 0 {
      AlignedStep(x, coarse);
      AlignedCoarse(x - coarse, coarse, unit);
      AlignedSum(coarse, x - coarse, unit);
    }
  }

  /** checked_align_up: refuses zero and overflow, else rounds up. */
  function CheckedAlignUp(value: U64, alignment: U64): (r: Option<U64>)
    ensures r.Some? <==> value != 0 && alignment != 0 && value + (alignment - 1) <= U64_MAX
    ensures r.Some? ==> r.value == Ceil(value, alignment)
  {
    if value == 0 || alignment == 0 || value > U64_MAX - (alignment - 1) then None
    else
      CeilDiv(value, alignment);
      CeilBounds(value, alignment);
      Some((value + alignment - 1) / alignment * alignment)
  }

  lemma {:induction false} CeilMod(x: int, unit: int)
    requires unit > 0 && x >= 0
    ensures Ceil(x, unit) == if x % unit == 0 then x else x + (unit - x % unit)
    decreases x
  {
    if x >= unit {
      CeilMod(x - unit, unit);
      ModStep(x, unit);
    } else {
      DivUnique(x, unit, 0, x);
      assert x > 0 ==> Ceil(x, unit) == unit + Ceil(x - unit, unit) && Ceil(x - unit, unit) == 0;
    }
  }

  /** align_up_multiple: refuses only overflow. */
  function AlignUpMultiple(value: U64, alignment: U64): (r: Option<U64>)
    ensures alignment == 0 ==> r == Some(value)
    ensures alignment != 0 ==> (r.Some? <==> Ceil(value, alignment) <= U64_MAX)
    ensures alignment != 0 && r.Some? ==> r.value == Ceil(value, alignment)
  {
    if alignment == 0 then Some(value)
    else
      CeilMod(value, alignment);
      var remainder := value % alignment;
      if remainder == 0 then Some(value)
      else if value > U64_MAX - (alignment - remainder) then None
      else Some(value + (alignment - remainder))
  }

  /** The greatest multiple of `unit` at or below `x`. */
  function Floor(x: int, unit: int): (f: int)
    requires unit > 0 && x >= 0
    ensures 0 <= f <= x < f + unit
  {
    if x < unit then 0 else unit + Floor(x - unit, unit)
  }

  /** Integer division and multiplication back give the floor. */
  lemma {:induction false} FloorDiv(x: int, unit: int)
    requires unit > 0 && x >= 0
    ensures Floor(x, unit) == x / unit * unit
    decreases x
  {
    if x >= unit {
      FloorDiv(x - unit, unit);
      ModStep(x, unit);
    } else {
      DivUnique(x, unit, 0, x);
    }
  }

  lemma {:induction false} FloorIsAligned(x: int, unit: int)
    requires unit > 0 && x >= 0
    ensures Aligned(Floor(x, unit), unit)
    decreases x
  {
    if x >= unit { FloorIsAligned(x - unit, unit); }
  }
}
