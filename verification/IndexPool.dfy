/** The pool of small per-thread numbers: a bitmap of the numbers owned, and a
    cursor for the threads past it. */
module IndexPool {
  import opened Words
  import opened Bits

  const MAX_WIDTH: nat := 256
  const WORDS: nat := MAX_WIDTH / WORD_BITS

  function Clamp(width: nat): (w: nat)
    ensures 1 <= w <= MAX_WIDTH && (1 <= width <= MAX_WIDTH ==> w == width)
    ensures (width < 1 ==> w == 1) && (width > MAX_WIDTH ==> w == MAX_WIDTH)
  {
    Min(Max(width, 1), MAX_WIDTH)
  }

  /** How many bits of word `wordNo` a pool of `width` uses. */
  function UsableBits(width: nat, wordNo: nat): nat {
    if width <= wordNo * WORD_BITS then 0 else Min(width - wordNo * WORD_BITS, WORD_BITS)
  }

  /** Whether `number` is taken in the bitmap `taken`. */
  predicate Taken(taken: seq<nat>, number: nat)
    requires number / WORD_BITS < |taken|
  {
    Bit(taken[number / WORD_BITS], number % WORD_BITS)
  }

  lemma Split(wordNo: nat, bit: nat)
    requires bit < WORD_BITS
    ensures (wordNo * WORD_BITS + bit) / WORD_BITS == wordNo
    ensures (wordNo * WORD_BITS + bit) % WORD_BITS == bit
  {
  }

  class IndexPool {
    var taken: array<nat>
    var shared: U64

    ghost predicate Valid()
      reads this, taken
    {
      taken.Length == WORDS && forall w | 0 <= w < WORDS :: taken[w] < Pow2(WORD_BITS)
    }

    constructor ()
      ensures Valid() && fresh(taken) && shared == 0
      ensures forall n: nat | n < MAX_WIDTH :: !Taken(taken[..], n)
    {
      taken := new nat[WORDS](_ => 0);
      shared := 0;
      new;
      forall n: nat | n < MAX_WIDTH ensures !Taken(taken[..], n) {
        ZeroBit(n % WORD_BITS);
      }
      assert Pow2(WORD_BITS) > 0;
    }

    /** The compare-and-swap loop on one word, of which `u` bits are usable:
        its least free bit, or none when all of them are set. The first
        `flukes` swaps fail for no reason. */
    method ClaimBit(wordNo: nat, u: nat, flukes: nat) returns (claimed: Option<nat>, left: nat)
      requires Valid() && wordNo < WORDS && u <= WORD_BITS
      modifies taken
      ensures Valid()
      ensures claimed.None? ==> AllTaken(taken[wordNo], u) && taken[..] == old(taken[..])
      ensures claimed.Some? ==>
        && claimed.value < u && !Bit(old(taken[wordNo]), claimed.value)
        && AllTaken(old(taken[wordNo]), claimed.value)
        && taken[..] == old(taken[..])[wordNo := With(old(taken[wordNo]), claimed.value)]
    {
      var usable := Pow2(u) - 1;
      var bits := taken[wordNo];
      left := flukes;
      while true
        invariant bits == taken[wordNo] && taken[..] == old(taken[..])
        decreases left
      {
        var free := MaskedNot(bits, usable);
        if free == 0 {
          FullWord(bits, u);
          return None, left;
        }
        LeastFree(bits, u);
        var bit := TrailingZeros(free);
        if left == 0 {
          WithFits(bits, bit, WORD_BITS);
          taken[wordNo] := With(bits, bit);
          return Some(bit), left;
        }
        left := left - 1;
        bits := taken[wordNo];
      }
    }

    /** Claim, with nobody else in the pool. It takes the least free number
        below the width, or a shared one exactly when there is none. */
    method Claim(width: nat, flukes: nat) returns (number: nat, owned: bool)
      requires Valid()
      modifies this`shared, taken
      ensures Valid() && taken == old(taken)
      ensures number < Clamp(width)
      ensures owned ==>
        && !old(Taken(taken[..], number))
        && (forall k: nat | k < number :: old(Taken(taken[..], k)))
        && (forall k: nat | k < MAX_WIDTH :: Taken(taken[..], k) <==> k == number || old(Taken(taken[..], k)))
        && shared == old(shared)
      ensures !owned ==>
        && (forall k: nat | k < Clamp(width) :: old(Taken(taken[..], k)))
        && taken[..] == old(taken[..])
        && number == old(shared) % Clamp(width) && shared == WrapAdd(old(shared), 1)
    {
      var w := Clamp(width);
      var left := flukes;
      var wordNo := 0;
      while wordNo < WORDS && wordNo * WORD_BITS < w
        invariant 0 <= wordNo <= WORDS && Valid()
        invariant taken[..] == old(taken[..]) && shared == old(shared)
        invariant forall j: nat | j < wordNo :: AllTaken(taken[..][j], UsableBits(w, j))
      {
        var claimed;
        claimed, left := ClaimBit(wordNo, UsableBits(w, wordNo), left);
        if claimed.Some? {
          ClaimedNumber(old(taken[..]), taken[..], w, wordNo, claimed.value);
          return wordNo * WORD_BITS + claimed.value, true;
        }
        wordNo := wordNo + 1;
      }
      BelowTaken(taken[..], w, wordNo, 0);
      number := shared % w;
      owned := false;
      shared := WrapAdd(shared, 1);
    }

    /** Give a number back. A number past the bitmap changes nothing. */
    method GiveBack(index: nat)
      requires Valid()
      modifies taken
      ensures Valid()
      ensures forall k: nat | k < MAX_WIDTH :: Taken(taken[..], k) <==> k != index && old(Taken(taken[..], k))
    {
      if index / WORD_BITS < WORDS {
        ghost var before := taken[..];
        var w := index / WORD_BITS;
        taken[w] := Without(taken[w], index % WORD_BITS);
        WithoutFits(before[w], index % WORD_BITS);
        forall k: nat | k < MAX_WIDTH
          ensures Taken(taken[..], k) <==> k != index && Taken(before, k)
        {
          WithoutBit(before[w], index % WORD_BITS, k % WORD_BITS);
          assert k == k / WORD_BITS * WORD_BITS + k % WORD_BITS;
        }
      }
    }
  }

  /** Every bit below `u` is set. */
  ghost predicate AllTaken(word: nat, u: nat) {
    forall b: nat | b < u :: Bit(word, b)
  }

  /** Nothing free under the mask: every usable bit is set. */
  lemma FullWord(word: nat, u: nat)
    requires MaskedNot(word, Pow2(u) - 1) == 0
    ensures AllTaken(word, u)
  {
    forall b: nat | b < u ensures Bit(word, b) {
      MaskedNotBit(word, Pow2(u) - 1, b);
      LowBits(u, b);
      ZeroBit(b);
    }
  }

  /** Something free under the mask: its lowest bit is the least free one. */
  lemma LeastFree(word: nat, u: nat)
    requires MaskedNot(word, Pow2(u) - 1) > 0
    ensures var bit := TrailingZeros(MaskedNot(word, Pow2(u) - 1));
            bit < u && !Bit(word, bit) && AllTaken(word, bit)
  {
    var free := MaskedNot(word, Pow2(u) - 1);
    var bit := TrailingZeros(free);
    MaskedNotFits(word, Pow2(u) - 1);
    TrailingZerosIsTheLowestBit(free, u);
    MaskedNotBit(word, Pow2(u) - 1, bit);
    forall b: nat | b < bit ensures Bit(word, b) {
      MaskedNotBit(word, Pow2(u) - 1, b);
      LowBits(u, b);
    }
  }

  /** Full words, and the bits below `bit` of the word after them, are the
      numbers below it. */
  lemma BelowTaken(taken: seq<nat>, width: nat, wordNo: nat, bit: nat)
    requires |taken| == WORDS && wordNo <= WORDS && bit < WORD_BITS && width <= MAX_WIDTH
    requires forall j: nat | j < wordNo :: AllTaken(taken[j], UsableBits(width, j))
    requires bit > 0 ==> wordNo < WORDS && AllTaken(taken[wordNo], bit)
    ensures forall k: nat | k < wordNo * WORD_BITS + bit && k < width :: Taken(taken, k)
  {
    forall k: nat | k < wordNo * WORD_BITS + bit && k < width ensures Taken(taken, k) {
      var j, b := k / WORD_BITS, k % WORD_BITS;
      assert k == j * WORD_BITS + b;
      if j < wordNo {
        assert AllTaken(taken[j], UsableBits(width, j));
        assert b < UsableBits(width, j);
      }
    }
  }

  /** The number of the bit claimed is the least free one, and the only one
      the claim changes. */
  lemma ClaimedNumber(before: seq<nat>, after: seq<nat>, width: nat, wordNo: nat, bit: nat)
    requires |before| == WORDS && wordNo < WORDS && width <= MAX_WIDTH && bit < UsableBits(width, wordNo)
    requires forall j: nat | j < wordNo :: AllTaken(before[j], UsableBits(width, j))
    requires !Bit(before[wordNo], bit) && AllTaken(before[wordNo], bit)
    requires after == before[wordNo := With(before[wordNo], bit)]
    ensures var number := wordNo * WORD_BITS + bit;
            && number < width && !Taken(before, number)
            && (forall k: nat | k < number :: Taken(before, k))
            && (forall k: nat | k < MAX_WIDTH :: Taken(after, k) <==> k == number || Taken(before, k))
  {
    Split(wordNo, bit);
    BelowTaken(before, width, wordNo, bit);
    forall k: nat | k < MAX_WIDTH
      ensures Taken(after, k) <==> k == wordNo * WORD_BITS + bit || Taken(before, k)
    {
      WithBit(before[wordNo], bit, k % WORD_BITS);
      assert k == k / WORD_BITS * WORD_BITS + k % WORD_BITS;
    }
  }
}
