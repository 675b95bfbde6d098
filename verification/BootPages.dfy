/** Page arithmetic of boot images (crates/fastboot-protocol/src/boot_image.rs:942-944): rounding up
    with a bit mask, for page sizes that are powers of two. */
module BootPages {

  function Pow2(k: nat): (p: nat)
    ensures p >= 1
  {
    if k == 0 then 1 else 2 * Pow2(k - 1)
  }

  /** `is_power_of_two`. */
  predicate IsPow2(n: nat) {
    n == 1 || (n > 1 && n % 2 == 0 && IsPow2(n / 2))
  }

  function Log2(n: nat): (k: nat)
    requires IsPow2(n)
    ensures Pow2(k) == n
  {
    if n == 1 then 0 else 1 + Log2(n / 2)
  }

  /** Powers of two, and nothing else. */
  lemma PowersOnly(n: nat)
    ensures IsPow2(n) <==> exists k :: Pow2(k) == n
  {
    if IsPow2(n) {
      assert Pow2(Log2(n)) == n;
    }
    if k :| Pow2(k) == n {
      PowerIsPow2(k);
    }
  }

  lemma {:induction false} PowerIsPow2(k: nat)
    ensures IsPow2(Pow2(k))
  {
    if k > 0 {
      PowerIsPow2(k - 1);
    }
  }

  /** Bitwise and. */
  function And(x: nat, y: nat): nat {
    if x == 0 || y == 0 then 0 else 2 * And(x / 2, y / 2) + (x % 2) * (y % 2)
  }

  const BITS: nat := 64

  type Usize = x: int | 0 <= x < 0x1_0000_0000_0000_0000

  /** Bitwise complement of a 64-bit word. */
  function Not(x: Usize): Usize {
    0xFFFF_FFFF_FFFF_FFFF - x
  }

  /** `align_up`, for sums that fit a word. */
  function AlignUp(n: nat, align: nat): nat
    requires 0 < align && n + align - 1 < 0x1_0000_0000_0000_0000
  {
    And(n + align - 1, Not(align - 1))
  }

  /** `x` with its `k` low bits cleared. */
  function Cleared(x: nat, k: nat): (r: nat)
    ensures r <= x < r + Pow2(k)
    decreases k
  {
    if k == 0 then x else 2 * Cleared(x / 2, k - 1)
  }

  lemma {:induction false} AndOnes(x: nat, w: nat)
    requires x < Pow2(w)
    ensures And(x, Pow2(w) - 1) == x
    decreases w
  {
    if w > 0 {
      AndOnes(x / 2, w - 1);
      assert (Pow2(w) - 1) / 2 == Pow2(w - 1) - 1 && (Pow2(w) - 1) % 2 == 1;
    }
  }

  lemma {:induction false} AndEven(x: nat, h: nat)
    ensures And(x, 2 * h) == 2 * And(x / 2, h)
  {
    assert (2 * h) / 2 == h && (2 * h) % 2 == 0;
  }

  /** Masking with all ones but the low `k` clears those. */
  lemma {:induction false} AndHighOnes(x: nat, w: nat, k: nat)
    requires k <= w && x < Pow2(w) && Pow2(k) <= Pow2(w)
    ensures And(x, Pow2(w) - Pow2(k)) == Cleared(x, k)
    decreases k
  {
    if k == 0 {
      AndOnes(x, w);
    } else {
      AndHighOnes(x / 2, w - 1, k - 1);
      AndEven(x, Pow2(w - 1) - Pow2(k - 1));
    }
  }

  // ---------- multiples ----------

  predicate Multiple(m: nat, p: nat)
    requires p > 0
  {
    m == 0 || (m >= p && Multiple(m - p, p))
  }

  lemma {:induction false} MultipleIsMod(m: nat, p: nat)
    requires p > 0
    ensures Multiple(m, p) <==> m % p == 0
    decreases m
  {
    if m >= p {
      MultipleIsMod(m - p, p);
      ModLess(m, p);
    } else if m > 0 {
      assert m % p == m;
    }
  }

  lemma ModLess(m: nat, p: nat)
    requires 0 < p <= m
    ensures (m - p) % p == m % p
  {
    var q, r := m / p, m % p;
    assert m == q * p + r;
    assert m - p == (q - 1) * p + r;
    DivModUnique(m - p, p, q - 1, r);
  }

  lemma DivModUnique(m: nat, p: nat, q: int, r: nat)
    requires p > 0 && m == q * p + r && r < p
    ensures m % p == r
  {
    assert m == (m / p) * p + m % p;
    TimesGrows(m / p - q, p);
  }

  lemma TimesGrows(d: int, p: nat)
    ensures d >= 1 ==> d * p >= p
    ensures d <= -1 ==> d * p + p <= 0
  {}

  lemma {:induction false} MultipleAdd(a: nat, b: nat, p: nat)
    requires p > 0 && Multiple(a, p) && Multiple(b, p)
    ensures Multiple(a + b, p)
    decreases a
  {
    if a > 0 {
      MultipleAdd(a - p, b, p);
    }
  }

  lemma {:induction false} MultipleDouble(m: nat, p: nat)
    requires p > 0 && Multiple(m, p)
    ensures Multiple(2 * m, 2 * p)
    decreases m
  {
    if m > 0 {
      MultipleDouble(m - p, p);
    }
  }

  lemma {:induction false} MultipleGap(m: nat, r: nat, p: nat)
    requires p > 0 && Multiple(m, p) && Multiple(r, p) && m < r
    ensures m + p <= r
    decreases m
  {
    if m > 0 {
      MultipleGap(m - p, r - p, p);
    }
  }

  lemma {:induction false} ClearedIsMultiple(x: nat, k: nat)
    ensures Multiple(Cleared(x, k), Pow2(k))
    decreases k
  {
    if k == 0 {
      MultipleOfOne(x);
    } else {
      ClearedIsMultiple(x / 2, k - 1);
      MultipleDouble(Cleared(x / 2, k - 1), Pow2(k - 1));
    }
  }

  lemma {:induction false} MultipleOfOne(x: nat)
    ensures Multiple(x, 1)
  {
    if x > 0 {
      MultipleOfOne(x - 1);
    }
  }

  lemma Pow2Byte(a: nat)
    ensures Pow2(a + 8) == 0x100 * Pow2(a)
  {
    assert Pow2(a + 2) == 4 * Pow2(a);
    assert Pow2(a + 4) == 4 * Pow2(a + 2);
    assert Pow2(a + 6) == 4 * Pow2(a + 4);
  }

  lemma Pow2Word()
    ensures Pow2(BITS) == 0x1_0000_0000_0000_0000
  {
    Pow2Byte(0);
    Pow2Byte(8);
    Pow2Byte(16);
    Pow2Byte(24);
    Pow2Byte(32);
    Pow2Byte(40);
    Pow2Byte(48);
    Pow2Byte(56);
  }

  lemma {:induction false} Pow2Grows(k: nat, w: nat)
    ensures k <= w ==> Pow2(k) <= Pow2(w)
    ensures k > w ==> Pow2(k) > Pow2(w)
  {
    if k > 0 && w > 0 {
      Pow2Grows(k - 1, w - 1);
    }
  }

  /** The mask rounds up to the next multiple of the page size, and to none beyond it. */
  lemma AlignUpIsLeast(n: nat, p: nat)
    requires IsPow2(p) && n + p - 1 < 0x1_0000_0000_0000_0000
    ensures var r := AlignUp(n, p);
            n <= r < n + p && r % p == 0 && forall m: nat :: n <= m && m % p == 0 ==> r <= m
  {
    var k, r := Log2(p), AlignUp(n, p);
    Pow2Word();
    Pow2Grows(k, BITS);
    AndHighOnes(n + p - 1, BITS, k);
    ClearedIsMultiple(n + p - 1, k);
    MultipleIsMod(r, p);
    forall m: nat | n <= m && m % p == 0
      ensures r <= m
    {
      MultipleIsMod(m, p);
      if m < r {
        MultipleGap(m, r, p);
      }
    }
  }

  /** A multiple stands as it is. */
  lemma AlignUpMultiple(n: nat, p: nat)
    requires IsPow2(p) && n + p - 1 < 0x1_0000_0000_0000_0000
    ensures Multiple(AlignUp(n, p), p) && (Multiple(n, p) ==> AlignUp(n, p) == n)
  {
    AlignUpIsLeast(n, p);
    MultipleIsMod(AlignUp(n, p), p);
    MultipleIsMod(n, p);
  }
}
