/** Amounts added by many threads to the shards of one counter. */
module Shards {
  import opened Words
  import opened Bits

  datatype Add = Add(shard: nat, amount: nat)

  /** What shard `k` was given. */
  ghost function Share(adds: seq<Add>, k: nat): nat {
    if adds == [] then 0
    else Share(adds[..|adds| - 1], k) + if adds[|adds| - 1].shard == k then adds[|adds| - 1].amount else 0
  }

  ghost function Total(adds: seq<Add>): nat {
    if adds == [] then 0 else Total(adds[..|adds| - 1]) + adds[|adds| - 1].amount
  }

  /** What the first `n` shards were given. */
  ghost function Shares(adds: seq<Add>, n: nat): nat {
    if n == 0 then 0 else Shares(adds, n - 1) + Share(adds, n - 1)
  }

  lemma {:induction false} SharesGrow(adds: seq<Add>, n: nat)
    requires adds != []
    ensures var last := adds[|adds| - 1];
      Shares(adds, n) == Shares(adds[..|adds| - 1], n) + if last.shard < n then last.amount else 0
  {
    if n > 0 {
      SharesGrow(adds, n - 1);
    }
  }

  /** Nothing is lost or counted twice across the shards. */
  lemma {:induction false} SharesMakeTheTotal(adds: seq<Add>, n: nat)
    requires forall i | 0 <= i < |adds| :: adds[i].shard < n
    ensures Shares(adds, n) == Total(adds)
  {
    if adds == [] {
      NoSharesOfNothing(n);
    } else {
      SharesMakeTheTotal(adds[..|adds| - 1], n);
      SharesGrow(adds, n);
    }
  }

  lemma {:induction false} NoSharesOfNothing(n: nat)
    ensures Shares([], n) == 0
  {
    if n > 0 {
      NoSharesOfNothing(n - 1);
    }
  }

  lemma ShareGrows(adds: seq<Add>, add: Add, k: nat)
    ensures Share(adds + [add], k) == Share(adds, k) + if add.shard == k then add.amount else 0
    ensures Total(adds + [add]) == Total(adds) + add.amount
  {
    assert (adds + [add])[..|adds|] == adds;
  }

  lemma {:induction false} LaterSharesAreLarger(adds: seq<Add>, i: nat, j: nat, k: nat)
    requires i <= j <= |adds|
    ensures Share(adds[..i], k) <= Share(adds[..j], k)
  {
    if i < j {
      LaterSharesAreLarger(adds, i, j - 1, k);
      assert adds[..j][..j - 1] == adds[..j - 1];
    }
  }

  lemma {:induction false} ChangedShare(adds: seq<Add>, i: nat, amount: nat, k: nat)
    requires i < |adds|
    ensures Share(adds[i := Add(adds[i].shard, amount)], k) ==
      Share(adds, k) + if adds[i].shard == k then amount - adds[i].amount else 0
  {
    var changed, n := adds[i := Add(adds[i].shard, amount)], |adds| - 1;
    if i == n {
      assert changed[..n] == adds[..n];
    } else {
      assert changed[..n] == adds[..n][i := Add(adds[i].shard, amount)];
      ChangedShare(adds[..n], i, amount, k);
    }
  }

  // ------------------------------------------------------- a thread's shard

  ghost function BitAnd(x: nat, y: nat): nat {
    if x == 0 || y == 0 then 0 else 2 * BitAnd(x / 2, y / 2) + if x % 2 == 1 && y % 2 == 1 then 1 else 0
  }

  /** Masking a thread number with one less than a power of two picks a shard,
      the number's remainder. */
  lemma {:induction false} MaskPicksAShard(index: nat, w: nat)
    ensures BitAnd(index, Pow2(w) - 1) == index % Pow2(w)
  {
    if w == 0 {
      assert Pow2(w) == 1 && index % 1 == 0;
    } else if index == 0 {
      Parts(0, Pow2(w), 0, 0);
    } else {
      MaskPicksAShard(index / 2, w - 1);
      MaskedHalf(index, Pow2(w - 1));
    }
  }

  lemma MaskedHalf(index: nat, half: nat)
    requires index > 0 && half > 0 && BitAnd(index / 2, half - 1) == index / 2 % half
    ensures BitAnd(index, 2 * half - 1) == index % (2 * half)
  {
    MaskStep(index, half);
    HalvedRemainder(index, half);
  }

  lemma MaskStep(index: nat, half: nat)
    requires index > 0 && half > 0
    ensures BitAnd(index, 2 * half - 1) == 2 * BitAnd(index / 2, half - 1) + index % 2
  {
    assert (2 * half - 1) / 2 == half - 1 && (2 * half - 1) % 2 == 1;
  }

  lemma HalvedRemainder(x: nat, half: nat)
    requires half > 0
    ensures x % (2 * half) == 2 * (x / 2 % half) + x % 2
  {
    var q, r := x / 2 / half, x / 2 % half;
    assert x / 2 == half * q + r && x == 2 * (x / 2) + x % 2;
    assert 2 * (half * q) == (2 * half) * q;
    Parts(x, 2 * half, q, 2 * r + x % 2);
  }
}
