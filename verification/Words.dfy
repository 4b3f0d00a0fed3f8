/** Machine words: the fixed-width integers the engine computes with, and the
    saturating and wrapping operations it picks between. */
module Words {

  const U32_MAX: int := 0xFFFF_FFFF
  const U64_MAX: int := 0xFFFF_FFFF_FFFF_FFFF
  const U128_MAX: int := 0xFFFF_FFFF_FFFF_FFFF_FFFF_FFFF_FFFF_FFFF
  const TWO_TO_64: int := 0x1_0000_0000_0000_0000

  type U32 = x: int | 0 <= x <= 0xFFFF_FFFF
  type U64 = x: int | 0 <= x <= 0xFFFF_FFFF_FFFF_FFFF

  type Byte = x: int | 0 <= x < 256
  type Bytes = seq<Byte>

  datatype Option<+T> = None | Some(value: T)

  function Min(x: int, y: int): int {
    if x <= y then x else y
  }

  function Max(x: int, y: int): int {
    if x <= y then y else x
  }

  function SatAdd(x: U64, y: U64): U64 {
    Min(x + y, U64_MAX)
  }

  function SatSub(x: U64, y: U64): U64 {
    Max(x - y, 0)
  }

  function WrapAdd(x: U64, y: U64): U64 {
    (x + y) % TWO_TO_64
  }

  function Repeated<T>(x: T, n: nat): seq<T> {
    seq(n, _ => x)
  }

  // ------------------------------------------------------------- division

  lemma Whole(x: nat, w: nat, q: nat)
    requires w > 0 && x == w * q
    ensures x % w == 0
  {
    Parts(x, w, q, 0);
  }

  lemma Parts(x: int, w: int, q: int, r: int)
    requires w > 0 && x == w * q + r && 0 <= r < w
    ensures x / w == q && x % w == r
  {
    var d := x / w - q;
    assert x == w * (x / w) + x % w;
    assert w * d == r - x % w by { assert w * (x / w) == w * q + w * d; }
    AtLeastOnce(w, d);
  }

  lemma AtLeastOnce(w: int, d: int)
    requires w > 0
    ensures d >= 1 ==> w * d >= w
    ensures d <= -1 ==> w * d <= -w
  {
    if d >= 1 {
      assert w * (d - 1) >= 0;
    } else if d <= -1 {
      assert w * (d + 1) <= 0;
    }
  }

  // ------------------------------------------------------------- wrapping

  lemma WrapSum(x: nat, y: nat)
    ensures (x % TWO_TO_64 + y % TWO_TO_64) % TWO_TO_64 == (x + y) % TWO_TO_64
  {
    var q, r := x / TWO_TO_64, x % TWO_TO_64;
    var p, t := y / TWO_TO_64, y % TWO_TO_64;
    if r + t < TWO_TO_64 {
      Parts(x + y, TWO_TO_64, q + p, r + t);
    } else {
      Parts(x + y, TWO_TO_64, q + p + 1, r + t - TWO_TO_64);
    }
  }

  /** Adding to a wrapped word adds to what it stands for. */
  lemma WrappedAdd(word: U64, exact: nat, amount: U64)
    requires word == exact % TWO_TO_64
    ensures WrapAdd(word, amount) == (exact + amount) % TWO_TO_64
  {
    WrapSum(exact, amount);
  }
}
