/** The sector geometry accepted on Windows (src/worker/windows.rs, src/drives.rs). */
module SectorGeometry {
  import opened Common

  const SMALLEST_SECTOR: nat := 512
  const LARGEST_SECTOR: nat := 65_536

  predicate IsPowerOfTwo(n: nat)
  {
    n == 1 || (n > 1 && n % 2 == 0 && IsPowerOfTwo(n / 2))
  }

  predicate ValidSectorGeometry(size: nat, logical: nat, physical: nat)
  {
    && SMALLEST_SECTOR <= logical <= LARGEST_SECTOR
    && IsPowerOfTwo(logical)
    && logical <= physical <= LARGEST_SECTOR
    && IsPowerOfTwo(physical)
    && size % logical == 0
  }

  /** The sector sizes that are accepted, one by one. */
  lemma GeometryExactly(size: nat, logical: nat, physical: nat)
    ensures ValidSectorGeometry(size, logical, physical) <==>
      && logical in {512, 1024, 2048, 4096, 8192, 16384, 32768, 65536}
      && physical in {512, 1024, 2048, 4096, 8192, 16384, 32768, 65536}
      && logical <= physical && size % logical == 0
  {
    if SMALLEST_SECTOR <= logical <= LARGEST_SECTOR {
      PowersListed(logical);
    }
    if SMALLEST_SECTOR <= physical <= LARGEST_SECTOR {
      PowersListed(physical);
    }
  }

  lemma {:induction false} PowersListed(n: nat)
    requires 1 <= n <= 65536
    ensures IsPowerOfTwo(n) <==>
      n in {1, 2, 4, 8, 16, 32, 64, 128, 256, 512, 1024, 2048, 4096, 8192, 16384, 32768, 65536}
  {
    if n > 1 {
      PowersListed(n / 2);
    }
  }

  /** The smaller of two powers of two divides the larger. */
  lemma {:induction false} PowersDivide(a: nat, b: nat)
    requires IsPowerOfTwo(a) && IsPowerOfTwo(b) && a <= b
    ensures b % a == 0
    decreases a
  {
    if a > 1 {
      PowersDivide(a / 2, b / 2);
      var q := (b / 2) / (a / 2);
      assert b == a * q by {
        assert b / 2 == (a / 2) * q;
      }
      MultipleHasNoRest(a, q);
    }
  }

  lemma MultipleHasNoRest(a: nat, q: nat)
    requires a > 0
    ensures (a * q) % a == 0 && (a * q) / a == q
  {
    DivisionIsUnique(a * q, a, q, 0);
  }

  lemma DivisionIsUnique(n: int, a: nat, q: int, rest: nat)
    requires 0 <= rest < a && n == a * q + rest
    ensures n / a == q && n % a == rest
  {
    var k := q - n / a;
    assert a * k == n % a - rest by {
      assert n == a * (n / a) + n % a;
      assert a * k == a * q - a * (n / a);
    }
    ScaleBounds(a, k);
  }

  lemma ScaleBounds(a: int, k: int)
    requires a > 0
    ensures k >= 1 ==> a * k >= a
    ensures k <= -1 ==> a * k <= -a
  {
  }

  lemma {:induction false} TwiceAPower(n: nat)
    requires IsPowerOfTwo(n)
    ensures IsPowerOfTwo(2 * n)
  {
  }

  lemma MebibyteIsPower()
    ensures IsPowerOfTwo(MEBIBYTE)
  {
    hide IsPowerOfTwo;
    PowersListed(0x1_0000);
    TwiceAPower(0x1_0000);
    TwiceAPower(0x2_0000);
    TwiceAPower(0x4_0000);
    TwiceAPower(0x8_0000);
  }
}
