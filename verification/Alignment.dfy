/** Powers of two and rounding up to a multiple. */
module Alignment {

  import opened Common

  predicate PowerOfTwo(a: nat) { a == 1 || (a > 1 && a % 2 == 0 && PowerOfTwo(a / 2)) }

  function AlignUp(addr: nat, align: nat): nat
    requires align > 0
  {
    (addr + align - 1) / align * align
  }

  lemma {:induction false} Remainder(q: nat, r: nat, a: nat)
    requires r < a
    ensures (q * a + r) % a == r
  {
    var x := q * a + r;
    var d := x / a;
    assert x == d * a + x % a;
    if d < q {
      Scale(d + 1, q, a);
    } else if d > q {
      Scale(q + 1, d, a);
    }
  }

  lemma {:induction false} MultipleMod(q: nat, a: nat)
    requires a > 0
    ensures q * a % a == 0
  {
    Remainder(q, 0, a);
  }

  lemma {:induction false} PastMultiple(x: nat, r: nat, a: nat)
    requires a > 0 && x % a == 0 && r < a
    ensures (x + r) % a == r
  {
    assert x == x / a * a;
    Remainder(x / a, r, a);
  }

  lemma {:induction false} AtLeastTwice(x: nat, a: nat)
    requires 0 < a < x && x % a == 0
    ensures 2 * a <= x
  {
    var q := x / a;
    assert x == q * a;
    if q < 2 {
      Scale(q, 1, a);
    } else {
      Scale(2, q, a);
    }
  }

  lemma {:induction false} MultipleOfFour(x: nat, a: nat)
    requires a > 0 && a % 4 == 0 && x % a == 0
    ensures x % 4 == 0
  {
    var q, k := x / a, a / 4;
    assert x == q * a == 4 * (q * k);
  }

  lemma {:induction false} MultipleOfMultiple(x: nat, k: nat, a: nat)
    requires a > 0 && k > 0 && k % a == 0 && x % k == 0
    ensures x % a == 0
  {
    var q, d := x / k, k / a;
    assert x == q * k == q * (d * a) == (q * d) * a;
    MultipleMod(q * d, a);
  }

  lemma {:induction false} AlignUpIsLeast(addr: nat, align: nat)
    requires align > 0
    ensures addr <= AlignUp(addr, align) < addr + align
    ensures AlignUp(addr, align) % align == 0
  {
    var q := (addr + align - 1) / align;
    assert q * align % align == 0 by {
      MultipleMod(q, align);
    }
  }

  /** Rounding up never passes a multiple. */
  lemma {:induction false} AlignUpBelow(x: nat, m: nat, a: nat)
    requires a > 0 && x <= m && m % a == 0
    ensures AlignUp(x, a) <= m
  {
    AlignUpIsLeast(x, a);
    var q, k := (x + a - 1) / a, m / a;
    assert m == k * a;
    if q > k {
      Scale(k + 1, q, a);
    }
  }

  lemma {:induction false} AlignedTo(from: nat, k: nat, align: nat)
    requires k > 0 && k % 4 == 0 && align > 0
    ensures AlignUp(from, k) % 4 == 0
    ensures k % align == 0 ==> AlignUp(from, k) % align == 0
  {
    AlignUpIsLeast(from, k);
    var start := AlignUp(from, k);
    MultipleOfFour(start, k);
    if k % align == 0 {
      MultipleOfMultiple(start, k, align);
    }
  }

  lemma {:induction false} PowerPositive(a: nat)
    requires PowerOfTwo(a)
    ensures a > 0 && (a >= 4 ==> a % 4 == 0)
  {
    if a > 1 {
      PowerPositive(a / 2);
    }
  }

  lemma {:induction false} PowersNest(a: nat, b: nat)
    requires PowerOfTwo(a) && PowerOfTwo(b) && a <= b
    ensures b % a == 0
  {
    if a > 1 {
      PowersNest(a / 2, b / 2);
      var k := b / 2 / (a / 2);
      assert b == k * a;
      MultipleMod(k, a);
    }
  }

  lemma {:induction false} PowerProduct(a: nat, b: nat)
    requires PowerOfTwo(a) && PowerOfTwo(b)
    ensures PowerOfTwo(a * b)
  {
    if a > 1 {
      PowerProduct(a / 2, b);
      PowerDouble(a / 2 * b);
      Reassociate(a / 2, b);
    }
  }

  lemma {:induction false} PowerDouble(x: nat)
    requires PowerOfTwo(x)
    ensures PowerOfTwo(2 * x)
  {
    assert 2 * x / 2 == x;
  }

  lemma {:induction false} Reassociate(h: nat, b: nat)
    ensures 2 * h * b == 2 * (h * b)
  {
  }

  lemma {:induction false} BasePlusPage(base: nat, page: nat, align: nat)
    requires PowerOfTwo(align) && PowerOfTwo(base) && 0 < page < align && page < base
    ensures (base + page) % align != 0
  {
    hide PowerOfTwo;
    if align <= base {
      PowersNest(align, base);
      PastMultiple(base, page, align);
    } else {
      PowersNest(base, align);
      AtLeastTwice(align, base);
      PastMultiple(0, base + page, align);
    }
  }

  /** A stretch as long as `k` holds one multiple of it. */
  lemma {:induction false} OneMultiple(x: nat, y: nat, k: nat, from: nat)
    requires k > 0 && x % k == 0 && y % k == 0 && from <= x < from + k && from <= y < from + k
    ensures x == y
  {
    var p, q := x / k, y / k;
    assert x == p * k && y == q * k;
    if p < q {
      NextMultiple(p, q, k);
    } else if q < p {
      NextMultiple(q, p, k);
    }
  }

  lemma {:induction false} NextMultiple(p: nat, q: nat, k: nat)
    requires p < q
    ensures p * k + k <= q * k
  {
    Scale(p + 1, q, k);
  }
}
