/** How an allocation of size bytes is cut into n extents. */
module Stripe {
  import opened Types

  function Len(size: nat, n: nat, i: nat): nat
    requires n > 0
  {
    size / n + if i < size % n then 1 else 0
  }

  /** Where extent i starts: the sum of the lengths before it. */
  function Off(size: nat, n: nat, i: nat): nat
    requires n > 0
  {
    i * (size / n) + if i < size % n then i else size % n
  }

  lemma Tiles(size: nat, n: nat, i: nat)
    requires 0 < n <= size
    ensures Off(size, n, 0) == 0 && Off(size, n, n) == size
    ensures Off(size, n, i + 1) == Off(size, n, i) + Len(size, n, i)
    ensures Len(size, n, i) > 0
  {
    assert size == n * (size / n) + size % n;
    assert (i + 1) * (size / n) == i * (size / n) + size / n;
    assert n * (size / n) > 0;
  }

  lemma {:induction false} Monotone(size: nat, n: nat, i: nat, j: nat)
    requires 0 < n <= size && i <= j
    ensures Off(size, n, i) + (j - i) <= Off(size, n, j)
  {
    if i < j {
      Monotone(size, n, i, j - 1);
      Tiles(size, n, j - 1);
    }
  }

  /** Every byte of [0, size) lies in exactly one extent. */
  lemma {:induction false} Locate(size: nat, n: nat, k: nat, b: nat) returns (i: nat)
    requires 0 < n <= size && 0 < k <= n && b < Off(size, n, k)
    ensures i < k && Off(size, n, i) <= b < Off(size, n, i) + Len(size, n, i)
    decreases k
  {
    Tiles(size, n, k - 1);
    if Off(size, n, k - 1) <= b {
      i := k - 1;
    } else {
      i := Locate(size, n, k - 1, b);
    }
  }

  /** The kernel maps whole sectors: all borders fall on sectors exactly when
      sector size times extent count divides the size. */
  lemma SectorAligned(size: nat, n: nat)
    requires 0 < n <= size
    ensures (forall i :: 0 <= i < n ==> Len(size, n, i) % SECTOR == 0) <==> size % (SECTOR * n) == 0
    ensures size % (SECTOR * n) == 0 ==> forall i :: 0 <= i <= n ==> Off(size, n, i) % SECTOR == 0
    ensures size % (SECTOR * n) == 0 ==> size % SECTOR == 0
  {
    if forall i :: 0 <= i < n ==> Len(size, n, i) % SECTOR == 0 {
      assert Len(size, n, 0) % SECTOR == 0 && Len(size, n, n - 1) % SECTOR == 0;
      EvenCut(size, n);
    }
    if size % (SECTOR * n) == 0 {
      WholeCut(size, n, size / (SECTOR * n));
    }
  }

  /** If the first and the last extent are whole sectors, all are of one length. */
  lemma EvenCut(size: nat, n: nat)
    requires 0 < n <= size && Len(size, n, 0) % SECTOR == 0 && Len(size, n, n - 1) % SECTOR == 0
    ensures size % (SECTOR * n) == 0
  {
    var base := size / n;
    assert size == n * base + size % n;
    assert size % n == 0 && base % SECTOR == 0;
    var q := base / SECTOR;
    assert size == n * (SECTOR * q) == (SECTOR * n) * q by { MulSwap(n, SECTOR, q); }
    MultipleMod(q, SECTOR * n);
  }

  lemma WholeCut(size: nat, n: nat, q: nat)
    requires 0 < n <= size && size % (SECTOR * n) == 0 && q == size / (SECTOR * n)
    ensures forall i :: 0 <= i < n ==> Len(size, n, i) % SECTOR == 0
    ensures forall i :: 0 <= i <= n ==> Off(size, n, i) % SECTOR == 0
    ensures size % SECTOR == 0
  {
    assert size == (SECTOR * n) * q == n * (SECTOR * q) by { MulSwap(n, SECTOR, q); }
    MultipleMod(SECTOR * q, n);
    assert size / n == SECTOR * q && size % n == 0;
    MultipleMod(q, SECTOR);
    forall i | 0 <= i <= n ensures Off(size, n, i) % SECTOR == 0 {
      assert Off(size, n, i) == i * (SECTOR * q) == (i * q) * SECTOR by { MulSwap(i, SECTOR, q); }
      MultipleMod(i * q, SECTOR);
    }
    assert size == (n * q) * SECTOR by { MulSwap(n, SECTOR, q); }
    MultipleMod(n * q, SECTOR);
  }

  lemma MulSwap(a: nat, b: nat, c: nat)
    ensures a * (b * c) == (b * a) * c == (a * c) * b
  {
    assert a * (b * c) == (a * b) * c;
    assert (a * c) * b == a * (c * b);
  }

  lemma MultipleMod(q: nat, d: nat)
    requires d > 0
    ensures (q * d) % d == 0 && (q * d) / d == q
    ensures (d * q) % d == 0 && (d * q) / d == q
  {
    var x := q * d;
    assert x == d * (x / d) + x % d;
    var gap := q - x / d;
    assert d * gap == x % d;
    AwayFromZero(d, gap);
    assert gap == 0;
  }

  lemma AwayFromZero(d: int, g: int)
    requires d > 0
    ensures g >= 1 ==> d * g >= d
    ensures g <= -1 ==> d * g <= -d
  {}
}
