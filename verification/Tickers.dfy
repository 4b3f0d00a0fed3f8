/** A ticker kept once per shard, added to by any thread and read by summing
    the shards one load at a time. */
module Tickers {
  import opened Words
  import opened Shards
  import SharedNumbers

  ghost function Sum(cells: seq<U64>): nat {
    if cells == [] then 0 else Sum(cells[..|cells| - 1]) + cells[|cells| - 1]
  }

  /** The shards of one ticker. A thread's shard is its number masked to the
      shard count, which `MaskPicksAShard` says is the remainder. */
  class Ticker {
    const shards: array<U64>

    ghost predicate Valid() {
      shards.Length > 0
    }

    constructor (count: nat)
      ensures Valid() && fresh(shards) && shards.Length == SharedNumbers.PowerAtLeast(1, Max(count, 1))
      ensures forall k | 0 <= k < shards.Length :: shards[k] == 0
    {
      ghost var w := SharedNumbers.PowerAtLeastIs(0, Max(count, 1));
      shards := new U64[SharedNumbers.PowerAtLeast(1, Max(count, 1))](_ => 0);
    }

    method Add(index: nat, amount: U64)
      requires Valid()
      modifies shards
      ensures shards[..] == old(shards[..])[index % shards.Length := WrapAdd(old(shards[index % shards.Length]), amount)]
    {
      shards[index % shards.Length] := WrapAdd(shards[index % shards.Length], amount);
    }

    method GetTicker() returns (total: U64)
      requires Valid()
      ensures total == Sum(shards[..]) % TWO_TO_64
    {
      total := 0;
      for k := 0 to shards.Length
        invariant total == Sum(shards[..k]) % TWO_TO_64
      {
        assert shards[..k + 1][..k] == shards[..k];
        WrapSum(Sum(shards[..k]), shards[k]);
        total := WrapAdd(total, shards[k]);
      }
      assert shards[..] == shards[..shards.Length];
    }

    method Reset()
      requires Valid()
      modifies shards
      ensures forall k | 0 <= k < shards.Length :: shards[k] == 0
    {
      for k := 0 to shards.Length
        invariant forall i | 0 <= i < k :: shards[i] == 0
      {
        shards[k] := 0;
      }
    }
  }

  // ------------------------------------------------------ reads beside adds

  /** `words[i]` is what the shards hold after the first `i` adds, since they
      were last all zero. */
  ghost predicate Run(words: seq<seq<U64>>, adds: seq<Add>, n: nat) {
    && |words| == |adds| + 1
    && (forall i | 0 <= i < |words| :: |words[i]| == n)
    && (forall k | 0 <= k < n :: words[0][k] == 0)
    && forall i | 0 <= i < |adds| ::
         && adds[i].shard < n && adds[i].amount <= U64_MAX
         && words[i + 1] == words[i][adds[i].shard := WrapAdd(words[i][adds[i].shard], adds[i].amount)]
  }

  /** A read whose load of shard `k` comes after `loads[k]` of the adds. */
  ghost predicate Loads(loads: seq<nat>, from: nat, upTo: nat, n: nat) {
    |loads| == n && forall k | 0 <= k < n :: from <= loads[k] <= upTo
  }

  ghost function Read(words: seq<seq<U64>>, loads: seq<nat>, k: nat): U64
    requires k <= |loads| && forall i | 0 <= i < k :: loads[i] < |words| && i < |words[loads[i]]|
  {
    if k == 0 then 0 else WrapAdd(Read(words, loads, k - 1), words[loads[k - 1]][k - 1])
  }

  /** What the read would return if words did not wrap. */
  ghost function Unwrapped(adds: seq<Add>, loads: seq<nat>, k: nat): nat
    requires k <= |loads| && forall i | 0 <= i < k :: loads[i] <= |adds|
  {
    if k == 0 then 0 else Unwrapped(adds, loads, k - 1) + Share(adds[..loads[k - 1]], k - 1)
  }

  lemma {:induction false} WordIsTheShare(words: seq<seq<U64>>, adds: seq<Add>, n: nat, i: nat, k: nat)
    requires Run(words, adds, n) && i < |words| && k < n
    ensures words[i][k] == Share(adds[..i], k) % TWO_TO_64
  {
    if i > 0 {
      var was, add := words[i - 1], adds[i - 1];
      WordIsTheShare(words, adds, n, i - 1, k);
      assert adds[..i] == adds[..i - 1] + [add];
      ShareGrows(adds[..i - 1], add, k);
      WordGrows(was[k], Share(adds[..i - 1], k), add, k);
      assert words[i - 1 + 1] == was[add.shard := WrapAdd(was[add.shard], add.amount)];
    }
  }

  lemma WordGrows(word: U64, share: nat, add: Add, k: nat)
    requires word == share % TWO_TO_64 && add.amount <= U64_MAX
    ensures (if add.shard == k then WrapAdd(word, add.amount) else word)
      == (share + if add.shard == k then add.amount else 0) % TWO_TO_64
  {
    WrappedAdd(word, share, add.amount);
  }

  lemma {:induction false} ReadWraps(words: seq<seq<U64>>, adds: seq<Add>, n: nat, loads: seq<nat>, k: nat)
    requires Run(words, adds, n) && Loads(loads, 0, |adds|, n) && k <= n
    ensures Read(words, loads, k) == Unwrapped(adds, loads, k) % TWO_TO_64
  {
    if k > 0 {
      ReadWraps(words, adds, n, loads, k - 1);
      WordIsTheShare(words, adds, n, loads[k - 1], k - 1);
      WrapSum(Unwrapped(adds, loads, k - 1), Share(adds[..loads[k - 1]], k - 1));
    }
  }

  lemma {:induction false} UnwrappedIsOrdered(adds: seq<Add>, loads: seq<nat>, later: seq<nat>, k: nat)
    requires k <= |loads| && k <= |later|
    requires forall i | 0 <= i < k :: loads[i] <= later[i] <= |adds|
    ensures Unwrapped(adds, loads, k) <= Unwrapped(adds, later, k)
  {
    if k > 0 {
      UnwrappedIsOrdered(adds, loads, later, k - 1);
      LaterSharesAreLarger(adds, loads[k - 1], later[k - 1], k - 1);
    }
  }

  lemma {:induction false} AtOnePoint(adds: seq<Add>, i: nat, n: nat, k: nat)
    requires i <= |adds| && k <= n
    ensures Unwrapped(adds, seq(n, _ => i), k) == Shares(adds[..i], k)
  {
    if k > 0 {
      AtOnePoint(adds, i, n, k - 1);
    }
  }

  /** A read beside any adds returns, modulo 2^64, a total the ticker passed
      between the read's beginning and its end, however the loads and the adds
      interleave and whether or not a shard's own word wrapped. */
  lemma ReadIsATotalInBetween(words: seq<seq<U64>>, adds: seq<Add>, n: nat, loads: seq<nat>, from: nat, upTo: nat)
    requires Run(words, adds, n) && from <= upTo <= |adds| && Loads(loads, from, upTo, n)
    ensures Read(words, loads, n) == Unwrapped(adds, loads, n) % TWO_TO_64
    ensures Total(adds[..from]) <= Unwrapped(adds, loads, n) <= Total(adds[..upTo])
  {
    ReadWraps(words, adds, n, loads, n);
    UnwrappedIsOrdered(adds, seq(n, _ => from), loads, n);
    UnwrappedIsOrdered(adds, loads, seq(n, _ => upTo), n);
    AtOnePoint(adds, from, n, n);
    AtOnePoint(adds, upTo, n, n);
    SharesMakeTheTotal(adds[..from], n);
    SharesMakeTheTotal(adds[..upTo], n);
  }

  /** With no add running the read is exact: every amount added, modulo 2^64. */
  lemma ReadAtRestIsExact(words: seq<seq<U64>>, adds: seq<Add>, n: nat, at: nat)
    requires Run(words, adds, n) && at <= |adds|
    ensures Read(words, seq(n, _ => at), n) == Total(adds[..at]) % TWO_TO_64
  {
    ReadIsATotalInBetween(words, adds, n, seq(n, _ => at), at, at);
  }

  /** A read that follows another, shard by shard, returns no less exactly when
      the true total crossed no multiple of 2^64 between them. */
  lemma LaterReadIsNoLessIff(words: seq<seq<U64>>, adds: seq<Add>, n: nat, loads: seq<nat>, later: seq<nat>)
    requires Run(words, adds, n) && Loads(loads, 0, |adds|, n) && Loads(later, 0, |adds|, n)
    requires forall k | 0 <= k < n :: loads[k] <= later[k]
    requires Unwrapped(adds, later, n) - Unwrapped(adds, loads, n) < TWO_TO_64
    ensures Read(words, loads, n) <= Read(words, later, n)
      <==> Unwrapped(adds, loads, n) / TWO_TO_64 == Unwrapped(adds, later, n) / TWO_TO_64
  {
    ReadWraps(words, adds, n, loads, n);
    ReadWraps(words, adds, n, later, n);
    UnwrappedIsOrdered(adds, loads, later, n);
  }

  /** In terms of the ticker's totals, for a read that begins after another ended
      while the total grew by less than 2^64: it returns no less when the total
      crossed no multiple of 2^64 from the first read's beginning to its own
      end, and less when the total crossed one between the two reads. At rest
      one of the two is the case. */
  lemma ReadsFallWhenTheTotalWraps(words: seq<seq<U64>>, adds: seq<Add>, n: nat, loads: seq<nat>, later: seq<nat>,
                                   a: nat, b: nat, c: nat, d: nat)
    requires Run(words, adds, n) && a <= b <= c <= d <= |adds| && Loads(loads, a, b, n) && Loads(later, c, d, n)
    requires Total(adds[..d]) - Total(adds[..a]) < TWO_TO_64
    ensures Total(adds[..a]) / TWO_TO_64 == Total(adds[..d]) / TWO_TO_64 ==> Read(words, loads, n) <= Read(words, later, n)
    ensures Total(adds[..b]) / TWO_TO_64 < Total(adds[..c]) / TWO_TO_64 ==> Read(words, loads, n) > Read(words, later, n)
    ensures a == b && c == d ==>
      (Read(words, loads, n) <= Read(words, later, n)
       <==> Total(adds[..a]) / TWO_TO_64 == Total(adds[..d]) / TWO_TO_64)
  {
    ReadIsATotalInBetween(words, adds, n, loads, a, b);
    ReadIsATotalInBetween(words, adds, n, later, c, d);
    LaterReadIsNoLessIff(words, adds, n, loads, later);
    QuotientsInOrder(Total(adds[..a]), Unwrapped(adds, loads, n), Total(adds[..b]));
    QuotientsInOrder(Total(adds[..c]), Unwrapped(adds, later, n), Total(adds[..d]));
    UnwrappedIsOrdered(adds, loads, later, n);
    QuotientsInOrder(Unwrapped(adds, loads, n), Unwrapped(adds, later, n), Total(adds[..d]));
  }

  lemma QuotientsInOrder(x: nat, y: nat, z: nat)
    requires x <= y <= z
    ensures x / TWO_TO_64 <= y / TWO_TO_64 <= z / TWO_TO_64
  {
  }

  /** Two reads at rest, the second less than the first: the largest amount is
      added, read, and then one more. */
  lemma AWrapMakesALaterReadLess()
    ensures var adds, words: seq<seq<U64>> := [Add(0, U64_MAX), Add(0, 1)], [[0], [U64_MAX], [0]];
      && Run(words, adds, 1) && Loads([1], 1, 1, 1) && Loads([2], 2, 2, 1)
      && Read(words, [1], 1) == U64_MAX && Read(words, [2], 1) == 0
  {
    var words: seq<seq<U64>> := [[0], [U64_MAX], [0]];
    assert words[1] == words[0][0 := WrapAdd(0, U64_MAX)];
    assert words[2] == words[1][0 := WrapAdd(U64_MAX, 1)];
    assert Read(words, [1], 0) == 0 && Read(words, [2], 0) == 0;
  }

  /** So while the total stays below 2^64 reads never fall. */
  lemma ReadsNeverFallBelowTheWrap(words: seq<seq<U64>>, adds: seq<Add>, n: nat, loads: seq<nat>, later: seq<nat>)
    requires Run(words, adds, n) && Loads(loads, 0, |adds|, n) && Loads(later, 0, |adds|, n)
    requires forall k | 0 <= k < n :: loads[k] <= later[k]
    requires Total(adds) < TWO_TO_64
    ensures Read(words, loads, n) <= Read(words, later, n)
  {
    assert adds[..|adds|] == adds;
    UnwrappedIsOrdered(adds, loads, later, n);
    ReadIsATotalInBetween(words, adds, n, later, 0, |adds|);
    LaterReadIsNoLessIff(words, adds, n, loads, later);
  }

  /** What a ticker's loop sums is the total of the adds: nothing added to a
      shard is missed or counted twice. */
  lemma SumIsTheTotal(words: seq<seq<U64>>, adds: seq<Add>, n: nat, i: nat)
    requires Run(words, adds, n) && i < |words|
    ensures Sum(words[i]) % TWO_TO_64 == Total(adds[..i]) % TWO_TO_64
  {
    assert words[i][..n] == words[i];
    SumIsTheShares(words, adds, n, i, n);
    SharesMakeTheTotal(adds[..i], n);
  }

  lemma {:induction false} SumIsTheShares(words: seq<seq<U64>>, adds: seq<Add>, n: nat, i: nat, k: nat)
    requires Run(words, adds, n) && i < |words| && k <= n
    ensures Sum(words[i][..k]) % TWO_TO_64 == Shares(adds[..i], k) % TWO_TO_64
  {
    if k > 0 {
      SumIsTheShares(words, adds, n, i, k - 1);
      assert words[i][..k][..k - 1] == words[i][..k - 1];
      WordIsTheShare(words, adds, n, i, k - 1);
      SameWraps(Sum(words[i][..k - 1]), words[i][k - 1], Shares(adds[..i], k - 1), Share(adds[..i], k - 1));
    }
  }

  lemma SameWraps(a: nat, x: nat, b: nat, y: nat)
    requires a % TWO_TO_64 == b % TWO_TO_64 && x % TWO_TO_64 == y % TWO_TO_64
    ensures (a + x) % TWO_TO_64 == (b + y) % TWO_TO_64
  {
    WrapSum(a, x);
    WrapSum(b, y);
  }
}
