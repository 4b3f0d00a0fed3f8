/** The numbers handed out once the pool is full: round robin on a 64-bit
    cursor, and why its wrap does no harm at the widths the engine uses. */
module SharedNumbers {
  import opened Words
  import opened Bits
  import opened IndexPool

  // ------------------------------------------------------------- the width

  function PowerAtLeast(p: nat, n: nat): nat
    requires p > 0
    decreases n - p
  {
    if n <= p then p else PowerAtLeast(2 * p, n)
  }

  /** The width for `parallelism` cores, on a target with threads or without. */
  function WidthFor(parallelism: nat, threads: bool): nat {
    if !threads then 1 else Min(PowerAtLeast(1, Max(parallelism, 1)), MAX_WIDTH)
  }

  lemma {:induction false} PowerAtLeastIs(k: nat, n: nat) returns (m: nat)
    requires k == 0 || Pow2(k - 1) < n
    ensures k <= m && PowerAtLeast(Pow2(k), n) == Pow2(m) >= n
    ensures m > 0 && k < m ==> Pow2(m - 1) < n
    decreases n - Pow2(k)
  {
    if n <= Pow2(k) {
      m := k;
    } else {
      m := PowerAtLeastIs(k + 1, n);
    }
  }

  lemma {:induction false} Pow2Splits(a: nat, b: nat)
    ensures Pow2(a + b) == Pow2(a) * Pow2(b)
  {
    if a > 0 {
      Pow2Splits(a - 1, b);
      Twice(Pow2(a - 1), Pow2(b));
    }
  }

  lemma Twice(x: int, y: int)
    ensures 2 * (x * y) == (2 * x) * y
  {
  }

  lemma Pow2Is64()
    ensures Pow2(8) == MAX_WIDTH
    ensures Pow2(64) == TWO_TO_64
  {
    assert Pow2(4) == 16;
    Pow2Splits(4, 4);
    Pow2Splits(8, 8);
    Pow2Splits(16, 16);
    Pow2Splits(32, 32);
  }

  lemma {:induction false} Pow2Order(a: nat, b: nat)
    requires a <= b
    ensures Pow2(a) <= Pow2(b)
    ensures a < b ==> Pow2(a) < Pow2(b)
  {
    if a < b {
      Pow2Order(a, b - 1);
    }
  }

  /** The width is a power of two, at most the cap: the least one that covers
      the cores, up to it. */
  lemma WidthIsACoveringPowerOfTwo(parallelism: nat, threads: bool) returns (k: nat)
    ensures k <= 8 && WidthFor(parallelism, threads) == Pow2(k) <= MAX_WIDTH
    ensures threads ==> Min(Max(parallelism, 1), MAX_WIDTH) <= WidthFor(parallelism, threads)
    ensures threads && k > 0 ==> Pow2(k - 1) < Max(parallelism, 1)
    ensures !threads ==> WidthFor(parallelism, threads) == 1
  {
    Pow2Is64();
    if !threads {
      k := 0;
    } else {
      var m := PowerAtLeastIs(0, Max(parallelism, 1));
      if m <= 8 {
        Pow2Order(m, 8);
        k := m;
      } else {
        Pow2Order(8, m);
        Pow2Order(7, m - 1);
        k := 8;
      }
    }
  }

  /** So it divides the range of the cursor. */
  lemma WidthDividesTheCursor(parallelism: nat, threads: bool)
    ensures WidthFor(parallelism, threads) > 0
    ensures TWO_TO_64 % WidthFor(parallelism, threads) == 0
  {
    var k := WidthIsACoveringPowerOfTwo(parallelism, threads);
    Pow2Splits(k, 64 - k);
    Pow2Is64();
    Whole(TWO_TO_64, Pow2(k), Pow2(64 - k));
  }

  // ------------------------------------------------------------ the cursor

  /** What the claim that finds the cursor after `n` advances gets. */
  function NumberAt(n: nat, width: nat): nat
    requires width > 0
  {
    n % TWO_TO_64 % width
  }

  /** How many of the `k` shared claims from the `start`th on got `r`. */
  function Hits(start: nat, k: nat, width: nat, r: nat): nat
    requires width > 0
  {
    if k == 0 then 0
    else Hits(start, k - 1, width, r) + if NumberAt(start + k - 1, width) == r then 1 else 0
  }

  /** How many numbers below `n` leave `r`. */
  function Leaving(n: nat, width: nat, r: nat): nat
    requires width > 0
  {
    n / width + if n % width > r then 1 else 0
  }

  lemma LeavingStep(n: nat, width: nat, r: nat)
    requires r < width
    ensures Leaving(n + 1, width, r) == Leaving(n, width, r) + if n % width == r then 1 else 0
  {
    var q, s := n / width, n % width;
    assert n == width * q + s;
    if s == width - 1 {
      assert width * (q + 1) == width * q + width;
      Parts(n + 1, width, q + 1, 0);
    } else {
      Parts(n + 1, width, q, s + 1);
    }
  }

  /** Without a wrap in the way, or with one at a width that divides the
      range, hits are counted by remainders. */
  lemma {:induction false} HitsAreRemainders(start: nat, k: nat, width: nat, r: nat)
    requires r < width
    requires TWO_TO_64 % width == 0 || start + k <= TWO_TO_64
    ensures Hits(start, k, width, r) == Leaving(start + k, width, r) - Leaving(start, width, r)
  {
    if k > 0 {
      HitsAreRemainders(start, k - 1, width, r);
      LeavingStep(start + k - 1, width, r);
      NumberIsTheRemainder(start + k - 1, width);
    }
  }

  lemma NumberIsTheRemainder(n: nat, width: nat)
    requires width > 0 && (TWO_TO_64 % width == 0 || n < TWO_TO_64)
    ensures NumberAt(n, width) == n % width
  {
    if n < TWO_TO_64 {
      assert n % TWO_TO_64 == n;
    } else {
      WrapKeepsRemainder(n, width);
    }
  }

  lemma WrapKeepsRemainder(n: nat, width: nat)
    requires width > 0 && TWO_TO_64 % width == 0
    ensures n % TWO_TO_64 % width == n % width
  {
    var a, b := n / TWO_TO_64, n % TWO_TO_64;
    var c := TWO_TO_64 / width;
    assert TWO_TO_64 == width * c;
    var q, s := b / width, b % width;
    assert b == width * q + s;
    assert n == width * (a * c + q) + s by {
      assert n == a * (width * c) + (width * q + s);
      assert a * (width * c) == width * (a * c);
      assert width * (a * c) + width * q == width * (a * c + q);
    }
    Parts(n, width, a * c + q, s);
  }

  lemma WindowOfRemainders(start: nat, k: nat, width: nat, r: nat)
    requires r < width
    ensures k / width <= Leaving(start + k, width, r) - Leaving(start, width, r) <= k / width + 1
  {
    var q, s := start / width, start % width;
    var p, t := k / width, k % width;
    SumOfParts(width, q, s, p, t);
    assert start == width * q + s && k == width * p + t;
  }

  /** The parts of a sum, from the parts of its terms. */
  lemma SumOfParts(width: int, q: int, s: int, p: int, t: int)
    requires 0 <= s < width && 0 <= t < width
    ensures var n := (width * q + s) + (width * p + t);
      if s + t < width then n / width == q + p && n % width == s + t
      else n / width == q + p + 1 && n % width == s + t - width
  {
    var n := (width * q + s) + (width * p + t);
    Distributes(width, q, p);
    if s + t < width {
      Parts(n, width, q + p, s + t);
    } else {
      Distributes(width, q + p, 1);
      Parts(n, width, q + p + 1, s + t - width);
    }
  }

  lemma Distributes(x: int, y: int, z: int)
    ensures x * (y + z) == x * y + x * z
  {
  }

  /** Over any run of shared claims no number is handed out twice more than
      another. */
  ghost predicate Balanced(width: nat)
    requires width > 0
  {
    forall start: nat, k: nat, r: nat, q: nat | r < width && q < width ::
      Hits(start, k, width, r) <= Hits(start, k, width, q) + 1
  }

  lemma DividingWidthsBalance(width: nat)
    requires width > 0 && TWO_TO_64 % width == 0
    ensures Balanced(width)
  {
    forall start: nat, k: nat, r: nat, q: nat | r < width && q < width
      ensures Hits(start, k, width, r) <= Hits(start, k, width, q) + 1
    {
      HitsAreRemainders(start, k, width, r);
      HitsAreRemainders(start, k, width, q);
      WindowOfRemainders(start, k, width, r);
      WindowOfRemainders(start, k, width, q);
    }
  }

  lemma {:induction false} HitsSplit(start: nat, j: nat, k: nat, width: nat, r: nat)
    requires width > 0
    ensures Hits(start, j + k, width, r) == Hits(start, j, width, r) + Hits(start + j, k, width, r)
  {
    if k > 0 {
      HitsSplit(start, j, k - 1, width, r);
    }
  }

  lemma OneWrap(j: nat)
    ensures (TWO_TO_64 + j) % TWO_TO_64 == j % TWO_TO_64
  {
  }

  lemma {:induction false} HitsAfterTheWrap(k: nat, width: nat, r: nat)
    requires width > 0
    ensures Hits(TWO_TO_64, k, width, r) == Hits(0, k, width, r)
  {
    if k > 0 {
      HitsAfterTheWrap(k - 1, width, r);
      OneWrap(k - 1);
    }
  }

  /** A width that does not divide the range goes wrong at the wrap: the `width`
      claims around it hand out 0 twice and the last number not at all. */
  lemma OtherWidthsDoNot(width: nat)
    requires 0 < width <= MAX_WIDTH && TWO_TO_64 % width != 0
    ensures !Balanced(width)
  {
    var a, m := TWO_TO_64 / width, TWO_TO_64 % width;
    var start := width * a;
    assert TWO_TO_64 == start + m;
    Parts(start, width, a, 0);
    Parts(0, width, 0, 0);
    Parts(width - m, width, 0, width - m);
    forall r | r == 0 || r == width - 1
      ensures Hits(start, width, width, r) == if r == 0 then 2 else 0
    {
      HitsSplit(start, m, width - m, width, r);
      HitsAreRemainders(start, m, width, r);
      HitsAfterTheWrap(width - m, width, r);
      HitsAreRemainders(0, width - m, width, r);
    }
    assert Hits(start, width, width, 0) > Hits(start, width, width, width - 1) + 1;
  }

  /** The round robin is balanced exactly at the widths that divide the
      cursor's range, the engine's own among them. */
  lemma BalancedIff(width: nat)
    requires 0 < width <= MAX_WIDTH
    ensures Balanced(width) <==> TWO_TO_64 % width == 0
  {
    if TWO_TO_64 % width == 0 {
      DividingWidthsBalance(width);
    } else {
      OtherWidthsDoNot(width);
    }
  }

  lemma SharedClaimsStayBalanced(parallelism: nat, threads: bool)
    ensures WidthFor(parallelism, threads) > 0 && Balanced(WidthFor(parallelism, threads))
  {
    WidthDividesTheCursor(parallelism, threads);
    DividingWidthsBalance(WidthFor(parallelism, threads));
  }
}
