/** The file names of a backup repository: how they are printed, and that only
    what was printed parses. */
module BackupNames {
  import opened Words

  type U128 = x: int | 0 <= x <= 0xFFFF_FFFF_FFFF_FFFF_FFFF_FFFF_FFFF_FFFF

  type Radix = r: int | r == 10 || r == 16 witness 10

  const DIGITS: string := "0123456789abcdef"

  // ------------------------------------------------------------- printing

  /** `n` in digits, with no leading zero. */
  function Printed(n: nat, radix: Radix): string
    ensures |Printed(n, radix)| > 0
  {
    if n < radix then [DIGITS[n]] else Printed(n / radix, radix) + [DIGITS[n % radix]]
  }

  /** Padded with zeros on the left to at least `width`. */
  function Padded(s: string, width: nat): string {
    if |s| < width then Repeated('0', width - |s|) + s else s
  }

  function BackupFilename(id: U64): string {
    Padded(Printed(id, 10), 6) + ".backup"
  }

  function SharedFilename(hash: U128): string {
    Padded(Printed(hash, 16), 32) + ".sst"
  }

  // -------------------------------------------------------------- parsing

  /** The value of a digit, in either case, if it is one. */
  function DigitValue(c: char, radix: Radix): Option<nat> {
    var v := if '0' <= c <= '9' then c as int - '0' as int
             else if 'a' <= c <= 'f' then c as int - 'a' as int + 10
             else if 'A' <= c <= 'F' then c as int - 'A' as int + 10
             else 99;
    if v < radix then Some(v) else None
  }

  predicate AllDigits(s: string, radix: Radix) {
    forall i | 0 <= i < |s| :: DigitValue(s[i], radix).Some?
  }

  function Value(s: string, radix: Radix): nat
    requires AllDigits(s, radix)
  {
    if s == [] then 0 else Value(s[..|s| - 1], radix) * radix + DigitValue(s[|s| - 1], radix).value
  }

  /** The standard library's unsigned parse: one leading plus is allowed, no
      digits or anything else is refused, and so is a value past `max`. */
  function Parse(s: string, radix: Radix, max: nat): Option<nat> {
    var digits := if s != [] && s[0] == '+' then s[1..] else s;
    if digits != [] && AllDigits(digits, radix) && Value(digits, radix) <= max then Some(Value(digits, radix)) else None
  }

  function StripSuffix(s: string, suffix: string): Option<string> {
    if |suffix| <= |s| && s[|s| - |suffix|..] == suffix then Some(s[..|s| - |suffix|]) else None
  }

  function ParseBackupId(name: string): Option<U64> {
    var stem := StripSuffix(name, ".backup");
    if stem.None? then None
    else
      var id := Parse(stem.value, 10, U64_MAX);
      if id.Some? && BackupFilename(id.value) == name then Some(id.value) else None
  }

  function ParseSharedFilename(name: string): Option<U128> {
    var stem := StripSuffix(name, ".sst");
    if stem.None? then None
    else
      var hash := Parse(stem.value, 16, U128_MAX);
      if hash.Some? && SharedFilename(hash.value) == name then Some(hash.value) else None
  }

  // ---------------------------------------------------------- round trips

  lemma DigitRoundTrip(d: nat, radix: Radix)
    requires d < radix
    ensures DigitValue(DIGITS[d], radix) == Some(d)
  {
  }

  lemma DigitByDigit(n: nat, radix: Radix)
    ensures n == n / radix * radix + n % radix && 0 <= n % radix < radix
  {
  }

  lemma AppendDigit(s: string, d: nat, radix: Radix)
    requires AllDigits(s, radix) && d < radix
    ensures AllDigits(s + [DIGITS[d]], radix)
    ensures Value(s + [DIGITS[d]], radix) == Value(s, radix) * radix + d
  {
    DigitRoundTrip(d, radix);
    assert (s + [DIGITS[d]])[..|s|] == s;
  }

  lemma {:induction false} PrintedRoundTrip(n: nat, radix: Radix)
    ensures AllDigits(Printed(n, radix), radix) && Value(Printed(n, radix), radix) == n
  {
    if n < radix {
      AppendDigit([], n, radix);
      assert [] + [DIGITS[n]] == [DIGITS[n]];
    } else {
      PrintedRoundTrip(n / radix, radix);
      DigitByDigit(n, radix);
      AppendDigit(Printed(n / radix, radix), n % radix, radix);
    }
  }

  /** No digit is a plus sign. */
  lemma DigitsHaveNoSign(s: string, radix: Radix)
    requires AllDigits(s, radix)
    ensures s != [] ==> s[0] != '+'
  {
  }

  lemma {:induction false} LeadingZerosAreNothing(k: nat, s: string, radix: Radix)
    requires AllDigits(s, radix)
    ensures AllDigits(Repeated('0', k) + s, radix) && Value(Repeated('0', k) + s, radix) == Value(s, radix)
  {
    if s != [] {
      LeadingZerosAreNothing(k, s[..|s| - 1], radix);
      assert (Repeated('0', k) + s)[..|Repeated('0', k) + s| - 1] == Repeated('0', k) + s[..|s| - 1];
    } else if k > 0 {
      LeadingZerosAreNothing(k - 1, s, radix);
      assert (Repeated('0', k) + s)[..|Repeated('0', k) + s| - 1] == Repeated('0', k - 1) + s;
    }
  }

  lemma PaddedParses(n: nat, width: nat, radix: Radix, max: nat)
    requires n <= max
    ensures Parse(Padded(Printed(n, radix), width), radix, max) == Some(n)
  {
    var s := Printed(n, radix);
    PrintedRoundTrip(n, radix);
    if |s| < width {
      LeadingZerosAreNothing(width - |s|, s, radix);
    }
    DigitsHaveNoSign(Padded(s, width), radix);
  }

  lemma SuffixStrips(s: string, suffix: string)
    ensures StripSuffix(s + suffix, suffix) == Some(s)
  {
    assert (s + suffix)[|s|..] == suffix && (s + suffix)[..|s|] == s;
  }

  /** Backup names and ids are one to one: the name printed for an id parses to
      it, and nothing else does, so no sign or padding variant names it. */
  lemma BackupNamesAreOneToOne(id: U64, name: string)
    ensures ParseBackupId(name) == Some(id) <==> name == BackupFilename(id)
  {
    SuffixStrips(Padded(Printed(id, 10), 6), ".backup");
    PaddedParses(id, 6, 10, U64_MAX);
  }

  /** So are shared tables' names and content ids. */
  lemma SharedNamesAreOneToOne(hash: U128, name: string)
    ensures ParseSharedFilename(name) == Some(hash) <==> name == SharedFilename(hash)
  {
    SuffixStrips(Padded(Printed(hash, 16), 32), ".sst");
    PaddedParses(hash, 32, 16, U128_MAX);
  }

  /** Digits of `n` and nothing else, in lower case: at least `width` of them,
      and no zero in front of more. */
  predicate WrittenOut(s: string, n: nat, radix: Radix, width: nat) {
    && AllDigits(s, radix) && Value(s, radix) == n && (forall c | c in s :: c in DIGITS)
    && |s| >= width && (|s| > width ==> |s| > 0 && s[0] != '0')
  }

  lemma {:induction false} PrintedIsBare(n: nat, radix: Radix)
    ensures (forall c | c in Printed(n, radix) :: c in DIGITS) && (n > 0 ==> Printed(n, radix)[0] != '0')
    ensures n == 0 ==> |Printed(n, radix)| == 1
  {
    if n >= radix {
      DigitByDigit(n, radix);
      assert n / radix > 0;
      PrintedIsBare(n / radix, radix);
    }
  }

  lemma PaddedIsWrittenOut(n: nat, width: nat, radix: Radix)
    requires width > 0
    ensures WrittenOut(Padded(Printed(n, radix), width), n, radix, width)
  {
    var s := Printed(n, radix);
    PrintedRoundTrip(n, radix);
    PrintedIsBare(n, radix);
    if |s| < width {
      LeadingZerosAreNothing(width - |s|, s, radix);
      assert DIGITS[0] == '0';
    }
  }

  /** A backup's file is its id in decimal, six digits or as many as it takes,
      and a shared table's its content id in 32 hexadecimal digits. */
  lemma FileNamesAreWrittenOut(id: U64, hash: U128)
    ensures exists s :: BackupFilename(id) == s + ".backup" && WrittenOut(s, id, 10, 6)
    ensures exists s :: SharedFilename(hash) == s + ".sst" && WrittenOut(s, hash, 16, 32)
  {
    PaddedIsWrittenOut(id, 6, 10);
    PaddedIsWrittenOut(hash, 32, 16);
  }
}
