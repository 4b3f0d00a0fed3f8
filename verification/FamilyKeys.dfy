/** Column families as key prefixes: the engine's key for a caller's key, the
    range of a family, and the keys of the registry kept in family 0. */
module FamilyKeys {
  import opened Words

  const META_CF_ID: U32 := 0
  const DEFAULT_CF_ID: U32 := 1
  const MAX_CF_ID: U32 := U32_MAX - 1
  const CF_PREFIX_LEN: nat := 4

  // ---------------------------------------------------------- byte order

  /** The engine's key order: the first byte that differs decides, and a proper
      prefix comes first. */
  predicate Less(a: Bytes, b: Bytes) {
    b != [] && (a == [] || a[0] < b[0] || (a[0] == b[0] && Less(a[1..], b[1..])))
  }

  predicate InRange(key: Bytes, lo: Bytes, hi: Bytes) {
    !Less(key, lo) && Less(key, hi)
  }

  lemma LessHeads(h: Byte, s: Bytes, k: Byte, t: Bytes)
    ensures Less([h] + s, [k] + t) <==> h < k || (h == k && Less(s, t))
  {
    assert ([h] + s)[1..] == s && ([k] + t)[1..] == t;
  }

  // ---------------------------------------------------------- family ids

  function BigEndian(id: U32): Bytes {
    [id / 0x100_0000, id / 0x1_0000 % 0x100, id / 0x100 % 0x100, id % 0x100]
  }

  function FromBigEndian(b: Bytes): U32
    requires |b| == CF_PREFIX_LEN
  {
    var b0: int, b1: int, b2: int, b3: int := b[0], b[1], b[2], b[3];
    b0 * 0x100_0000 + b1 * 0x1_0000 + b2 * 0x100 + b3
  }

  lemma BigEndianRoundTrip(id: U32)
    ensures FromBigEndian(BigEndian(id)) == id
  {
    assert id == id / 0x100 * 0x100 + id % 0x100;
    assert id / 0x100 == id / 0x1_0000 * 0x100 + id / 0x100 % 0x100;
    assert id / 0x1_0000 == id / 0x100_0000 * 0x100 + id / 0x1_0000 % 0x100;
  }

  lemma FromBigEndianRoundTrip(b: Bytes)
    requires |b| == CF_PREFIX_LEN
    ensures BigEndian(FromBigEndian(b)) == b
  {
    var id := FromBigEndian(b);
    var b0: int, b1: int, b2: int, b3: int := b[0], b[1], b[2], b[3];
    assert id / 0x100 == b0 * 0x1_0000 + b1 * 0x100 + b2 && id % 0x100 == b3;
    assert id / 0x1_0000 == b0 * 0x100 + b1 && id / 0x100 % 0x100 == b2;
    assert id / 0x100_0000 == b0 && id / 0x1_0000 % 0x100 == b1;
  }

  /** Four-byte heads compare as the numbers they spell. */
  lemma LessFour(a: Bytes, s: Bytes, b: Bytes, t: Bytes)
    requires |a| == |b| == CF_PREFIX_LEN
    ensures Less(a + s, b + t) <==> FromBigEndian(a) < FromBigEndian(b) || (a == b && Less(s, t))
  {
    assert a + s == [a[0]] + ([a[1]] + ([a[2]] + ([a[3]] + s)));
    assert b + t == [b[0]] + ([b[1]] + ([b[2]] + ([b[3]] + t)));
    LessHeads(a[0], [a[1]] + ([a[2]] + ([a[3]] + s)), b[0], [b[1]] + ([b[2]] + ([b[3]] + t)));
    LessHeads(a[1], [a[2]] + ([a[3]] + s), b[1], [b[2]] + ([b[3]] + t));
    LessHeads(a[2], [a[3]] + s, b[2], [b[3]] + t);
    LessHeads(a[3], s, b[3], t);
    assert a == [a[0], a[1], a[2], a[3]] && b == [b[0], b[1], b[2], b[3]];
  }

  // -------------------------------------------------------- engine's keys

  function PrefixKey(id: U32, key: Bytes): Bytes {
    BigEndian(id) + key
  }

  /** The caller's key, from the engine's; a key too short to carry an id is
      handed back whole. */
  function CallersKey(prefixed: Bytes): Bytes {
    if |prefixed| >= CF_PREFIX_LEN then prefixed[CF_PREFIX_LEN..] else prefixed
  }

  function FamilyOf(prefixed: Bytes): Option<U32> {
    if |prefixed| >= CF_PREFIX_LEN then Some(FromBigEndian(prefixed[..CF_PREFIX_LEN])) else None
  }

  function LowerBound(id: U32): Bytes {
    BigEndian(id)
  }

  function UpperBound(id: U32): Bytes {
    BigEndian(Min(id + 1, U32_MAX))
  }

  /** The encoding is undone by `CallersKey` and `FamilyOf`, and every key long
      enough to carry an id is an encoding. */
  lemma PrefixKeyRoundTrip(id: U32, key: Bytes)
    ensures CallersKey(PrefixKey(id, key)) == key
    ensures FamilyOf(PrefixKey(id, key)) == Some(id)
    ensures |key| >= CF_PREFIX_LEN ==> FamilyOf(key).Some? && PrefixKey(FamilyOf(key).value, CallersKey(key)) == key
  {
    assert PrefixKey(id, key)[..CF_PREFIX_LEN] == BigEndian(id);
    BigEndianRoundTrip(id);
    if |key| >= CF_PREFIX_LEN {
      FromBigEndianRoundTrip(key[..CF_PREFIX_LEN]);
    }
  }

  /** It embeds the order: families by id, and inside one the caller's own key
      order. */
  lemma PrefixKeyKeepsOrder(a: U32, s: Bytes, b: U32, t: Bytes)
    ensures Less(PrefixKey(a, s), PrefixKey(b, t)) <==> a < b || (a == b && Less(s, t))
  {
    LessFour(BigEndian(a), s, BigEndian(b), t);
    BigEndianRoundTrip(a);
    BigEndianRoundTrip(b);
  }

  /** A key long enough to carry an id lies between a family's bounds exactly
      when it carries that id. */
  lemma RangeIsTheFamily(id: U32, key: Bytes)
    requires id <= MAX_CF_ID && |key| >= CF_PREFIX_LEN
    ensures InRange(key, LowerBound(id), UpperBound(id)) <==> FamilyOf(key) == Some(id)
  {
    var head, tail := key[..CF_PREFIX_LEN], key[CF_PREFIX_LEN..];
    assert key == head + tail;
    assert LowerBound(id) == BigEndian(id) + [] && UpperBound(id) == BigEndian(id + 1) + [];
    LessFour(head, tail, BigEndian(id), []);
    LessFour(head, tail, BigEndian(id + 1), []);
    BigEndianRoundTrip(id);
    BigEndianRoundTrip(id + 1);
    FromBigEndianRoundTrip(head);
  }

  /** So no key is in two families' ranges, the registry's included. This holds
      of a key too short to carry an id as well. */
  lemma RangesAreDisjoint(a: U32, b: U32, key: Bytes)
    requires a <= MAX_CF_ID && b <= MAX_CF_ID && a != b
    ensures !(InRange(key, LowerBound(a), UpperBound(a)) && InRange(key, LowerBound(b), UpperBound(b)))
  {
    if |key| >= CF_PREFIX_LEN {
      RangeIsTheFamily(a, key);
      RangeIsTheFamily(b, key);
    } else {
      ShortKeysInRange(a, key);
      ShortKeysInRange(b, key);
      BigEndianRoundTrip(a + 1);
      BigEndianRoundTrip(b + 1);
    }
  }

  /** A key too short to carry an id can still fall in a range: exactly when
      it is the upper bound with its trailing zeros cut off. */
  lemma ShortKeysInRange(id: U32, key: Bytes)
    requires id <= MAX_CF_ID && |key| < CF_PREFIX_LEN
    ensures InRange(key, LowerBound(id), UpperBound(id)) <==> UpperBound(id) == key + Repeated<Byte>(0, CF_PREFIX_LEN - |key|)
  {
    var padded := key + Repeated<Byte>(0, CF_PREFIX_LEN - |key|);
    ShortLess(key, BigEndian(id));
    ShortLess(key, BigEndian(id + 1));
    BigEndianRoundTrip(id);
    BigEndianRoundTrip(id + 1);
    FromBigEndianRoundTrip(padded);
  }

  /** Such a key: three bytes, in the range of family 255. */
  lemma AShortKeyInAFamilysRange()
    ensures var key: Bytes := [0, 0, 1];
      FamilyOf(key).None? && InRange(key, LowerBound(255), UpperBound(255))
  {
    var key: Bytes := [0, 0, 1];
    ShortKeysInRange(255, key);
    assert UpperBound(255) == [0, 0, 1, 0] == key + Repeated<Byte>(0, 1);
  }

  /** A short key is below a four-byte one exactly when, padded with zeros, it
      spells no more. */
  lemma ShortLess(key: Bytes, b: Bytes)
    requires |key| < CF_PREFIX_LEN == |b|
    ensures Less(key, b) <==> FromBigEndian(key + Repeated<Byte>(0, CF_PREFIX_LEN - |key|)) <= FromBigEndian(b)
  {
    var k := |key|;
    var padded := key + Repeated<Byte>(0, CF_PREFIX_LEN - k);
    assert b == [b[0]] + ([b[1]] + ([b[2]] + ([b[3]] + [])));
    if k == 0 {
    } else if k == 1 {
      assert key == [key[0]] + [];
      LessHeads(key[0], [], b[0], [b[1]] + ([b[2]] + ([b[3]] + [])));
    } else if k == 2 {
      assert key == [key[0]] + ([key[1]] + []);
      LessHeads(key[0], [key[1]] + [], b[0], [b[1]] + ([b[2]] + ([b[3]] + [])));
      LessHeads(key[1], [], b[1], [b[2]] + ([b[3]] + []));
    } else {
      assert key == [key[0]] + ([key[1]] + ([key[2]] + []));
      LessHeads(key[0], [key[1]] + ([key[2]] + []), b[0], [b[1]] + ([b[2]] + ([b[3]] + [])));
      LessHeads(key[1], [key[2]] + [], b[1], [b[2]] + ([b[3]] + []));
      LessHeads(key[2], [], b[2], [b[3]] + []);
    }
  }

  /** The id past the last one would have an empty range, which is why it is
      never handed out. */
  lemma NoRangePastTheLastId(key: Bytes)
    ensures !InRange(key, LowerBound(U32_MAX), UpperBound(U32_MAX))
  {
  }

  // ----------------------------------------------------- registry's keys

  const NAME_TAG: Bytes := [0x6E, 0x61, 0x6D, 0x65] // "name"
  const COLON: Byte := 0x3A
  const SEMICOLON: Byte := 0x3B

  function NextIdKey(): Bytes {
    PrefixKey(META_CF_ID, [0x6E, 0x65, 0x78, 0x74, 0x5F, 0x69, 0x64]) // "next_id"
  }

  function NameScanPrefix(): Bytes {
    PrefixKey(META_CF_ID, NAME_TAG + [COLON])
  }

  /** Built by incrementing the trailing colon. */
  function NameScanUpper(): Bytes {
    PrefixKey(META_CF_ID, NAME_TAG + [SEMICOLON])
  }

  /** `name` is a string: its bytes are UTF-8. */
  function NameKey(name: Bytes): Bytes {
    NameScanPrefix() + name
  }

  function NameFromKey(key: Bytes): Option<Bytes> {
    if NameScanPrefix() <= key && Utf8(key[|NameScanPrefix()|..]) then Some(key[|NameScanPrefix()|..]) else None
  }

  predicate Continuation(b: Byte) {
    0x80 <= b <= 0xBF
  }

  /** Well-formed UTF-8, as Table 3-7 of the Unicode Standard has it. */
  predicate Utf8(b: Bytes) {
    if b == [] then true
    else if b[0] <= 0x7F then Utf8(b[1..])
    else if 0xC2 <= b[0] <= 0xDF then |b| >= 2 && Continuation(b[1]) && Utf8(b[2..])
    else if 0xE0 <= b[0] <= 0xEF then
      && |b| >= 3 && Continuation(b[1]) && Continuation(b[2])
      && (b[0] == 0xE0 ==> b[1] >= 0xA0) && (b[0] == 0xED ==> b[1] <= 0x9F)
      && Utf8(b[3..])
    else if 0xF0 <= b[0] <= 0xF4 then
      && |b| >= 4 && Continuation(b[1]) && Continuation(b[2]) && Continuation(b[3])
      && (b[0] == 0xF0 ==> b[1] >= 0x90) && (b[0] == 0xF4 ==> b[1] <= 0x8F)
      && Utf8(b[4..])
    else false
  }

  /** The keys from `p` followed by `c` up to `p` followed by the next byte are
      those that start with `p` and `c`. */
  lemma {:induction false} BumpedByteBoundsThePrefix(p: Bytes, c: Byte, key: Bytes)
    requires c < 255
    ensures InRange(key, p + [c], p + [c + 1]) <==> p + [c] <= key
  {
    if p == [] {
      assert p + [c] == [c] + [] && p + [c + 1] == [c + 1] + [];
      if key != [] {
        assert key == [key[0]] + key[1..];
        LessHeads(key[0], key[1..], c, []);
        LessHeads(key[0], key[1..], c + 1, []);
      }
    } else {
      assert p + [c] == [p[0]] + (p[1..] + [c]) && p + [c + 1] == [p[0]] + (p[1..] + [c + 1]);
      if key != [] {
        assert key == [key[0]] + key[1..];
        LessHeads(key[0], key[1..], p[0], p[1..] + [c]);
        LessHeads(key[0], key[1..], p[0], p[1..] + [c + 1]);
        BumpedByteBoundsThePrefix(p[1..], c, key[1..]);
        if p + [c] <= key {
          assert key[1..][..|p|] == key[..|p| + 1][1..] == p[1..] + [c];
        }
        if key[0] == p[0] && p[1..] + [c] <= key[1..] {
          assert key[..|p| + 1] == [key[0]] + key[1..][..|p|] == p + [c];
        }
      }
    }
  }

  /** The scan of the names meets exactly the `name:` keys, of all keys. */
  lemma NameScanMeetsTheNames(key: Bytes)
    ensures InRange(key, NameScanPrefix(), NameScanUpper()) <==> NameScanPrefix() <= key
  {
    var p := BigEndian(META_CF_ID) + NAME_TAG;
    assert NameScanPrefix() == p + [COLON] && NameScanUpper() == p + [SEMICOLON];
    BumpedByteBoundsThePrefix(p, COLON, key);
  }

  /** And from each it recovers the name: names and their keys are one to one,
      and the counter is not among them. */
  lemma NameKeyRoundTrip(name: Bytes, key: Bytes)
    ensures Utf8(name) ==> NameFromKey(NameKey(name)) == Some(name)
    ensures NameFromKey(key).Some? ==> key == NameKey(NameFromKey(key).value) && Utf8(NameFromKey(key).value)
    ensures NameFromKey(NextIdKey()).None? && !(NameScanPrefix() <= NextIdKey())
    ensures FamilyOf(NameKey(name)) == FamilyOf(NextIdKey()) == Some(META_CF_ID)
  {
    var p := NameScanPrefix();
    assert NameKey(name)[..|p|] == p && NameKey(name)[|p|..] == name;
    assert NameScanPrefix()[5] != NextIdKey()[5];
    BigEndianRoundTrip(META_CF_ID);
    assert NameKey(name)[..CF_PREFIX_LEN] == NextIdKey()[..CF_PREFIX_LEN] == BigEndian(META_CF_ID);
  }

  /** The bytes of a plain text. */
  function Ascii(text: string): Bytes {
    seq(|text|, i requires 0 <= i < |text| => if text[i] as int < 0x80 then text[i] as int else 0)
  }

  /** How the registry's keys are laid out, byte for byte. */
  lemma RegistryKeysAreLaidOut(name: Bytes)
    ensures NameKey(name) == [0, 0, 0, 0] + Ascii("name:") + name
    ensures NextIdKey() == [0, 0, 0, 0] + Ascii("next_id")
    ensures NameScanPrefix() == [0, 0, 0, 0] + Ascii("name:") && NameScanUpper() == [0, 0, 0, 0] + Ascii("name;")
  {
    assert BigEndian(META_CF_ID) == [0, 0, 0, 0];
  }
}
