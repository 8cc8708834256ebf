/** Multiples of a page size: the arithmetic that every size and address of the page allocator obeys. */
module PageMath {

  /** `x` is a whole number of pages. Stated by repeated subtraction, which keeps proofs about tables linear. */
  predicate Aligned(page: nat, x: nat)
    requires page > 0
    decreases x
  {
    x == 0 || (x >= page && Aligned(page, x - page))
  }

  /** Next multiple of `unit` at or above `x`: add the missing slack. */
  function RoundUp(unit: nat, x: nat): (r: nat)
    requires unit > 0
    ensures x <= r < x + unit
  {
    if x % unit == 0 then x else x + (unit - x % unit)
  }

  lemma RemainderIsUnique(d: int, q: int, r: int)
    requires 0 <= r < d
    ensures (d * q + r) % d == r
  {
    var x := d * q + r;
    assert x == d * (x / d) + x % d;
    var k := q - x / d;
    assert d * k == x % d - r;
    assert k >= 1 ==> d * k >= d;
    assert k <= -1 ==> d * k <= -d;
  }

  lemma {:induction false} AlignedIsMultiple(page: nat, x: nat)
    requires page > 0
    ensures Aligned(page, x) <==> x % page == 0
    decreases x
  {
    if x < page {
      RemainderIsUnique(page, 0, x);
    } else {
      AlignedIsMultiple(page, x - page);
      assert x == page * ((x - page) / page + 1) + (x - page) % page;
      RemainderIsUnique(page, (x - page) / page + 1, (x - page) % page);
    }
  }

  lemma {:induction false} AlignedSum(page: nat, a: nat, b: nat)
    requires page > 0 && Aligned(page, a) && Aligned(page, b)
    ensures Aligned(page, a + b)
    decreases b
  {
    if b != 0 {
      AlignedSum(page, a, b - page);
      assert a + b - page == a + (b - page);
    }
  }

  lemma {:induction false} AlignedDifference(page: nat, a: nat, b: nat)
    requires page > 0 && Aligned(page, a) && Aligned(page, b) && b <= a
    ensures Aligned(page, a - b)
    decreases b
  {
    if b != 0 {
      AlignedDifference(page, a - page, b - page);
      assert a - b == (a - page) - (b - page);
    }
  }

  lemma AlignedPage(page: nat)
    requires page > 0
    ensures Aligned(page, page)
  {
    assert Aligned(page, page - page);
  }

  lemma RoundUpAligned(unit: nat, x: nat)
    requires unit > 0
    ensures Aligned(unit, RoundUp(unit, x))
    ensures Aligned(unit, x) ==> RoundUp(unit, x) == x
  {
    var r := RoundUp(unit, x);
    if x % unit != 0 {
      assert x == unit * (x / unit) + x % unit;
      assert r == unit * (x / unit + 1) + 0;
      RemainderIsUnique(unit, x / unit + 1, 0);
    }
    AlignedIsMultiple(unit, r);
    AlignedIsMultiple(unit, x);
  }

  lemma AlignedToDivisor(page: nat, unit: nat, x: nat)
    requires page > 0 && unit > 0 && page % unit == 0 && Aligned(page, x)
    ensures x % unit == 0
  {
    AlignedIsMultiple(page, x);
    var a, b := x / page, page / unit;
    assert x == page * a && page == unit * b;
    assert x == unit * (b * a) + 0 by {
      assert (unit * b) * a == unit * (b * a);
    }
    RemainderIsUnique(unit, b * a, 0);
  }
}
