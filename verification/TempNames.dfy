/** The one shape every temp name has, and its recogniser. */
module TempNames {
  import opened FileSystem

  const TEMP_PREFIX: Name := ".atomicfile-"
  const TEMP_SUFFIX: Name := ".tmp"
  const TWO_TO_THE_64: nat := 0x1_0000_0000_0000_0000

  predicate IsDigit(c: char) { '0' <= c <= '9' }

  predicate AllDigits(s: string) { forall i | 0 <= i < |s| :: IsDigit(s[i]) }

  /** The names a sweep may reclaim, as the documentation describes them. */
  ghost predicate HasTempShape(name: Name) {
    exists digits: string :: digits != [] && AllDigits(digits) && name == ".atomicfile-" + digits + ".tmp"
  }

  function CutPrefix(s: string, prefix: string): Option<string> {
    if prefix <= s then Some(s[|prefix|..]) else None
  }

  function CutSuffix(s: string, suffix: string): Option<string> {
    if |suffix| <= |s| && s[|s| - |suffix|..] == suffix then Some(s[..|s| - |suffix|]) else None
  }

  predicate IsTempName(name: Name) {
    var afterPrefix := CutPrefix(name, TEMP_PREFIX);
    afterPrefix.Some? &&
    var middle := CutSuffix(afterPrefix.value, TEMP_SUFFIX);
    middle.Some? && middle.value != [] && AllDigits(middle.value)
  }

  /** The recogniser accepts the documented shape and nothing else. */
  lemma RecogniserIsExact(name: Name)
    ensures IsTempName(name) <==> HasTempShape(name)
  {
  }

  method IsAllDigits(s: string) returns (ok: bool)
    ensures ok <==> s != [] && AllDigits(s)
  {
    if s == [] {
      return false;
    }
    for i := 0 to |s|
      invariant AllDigits(s[..i])
    {
      if s[i] < '0' || s[i] > '9' {
        return false;
      }
      assert s[..i + 1] == s[..i] + [s[i]];
    }
    assert s[..|s|] == s;
    return true;
  }

  method IsStaleTempName(name: Name) returns (ok: bool)
    ensures ok <==> HasTempShape(name)
  {
    RecogniserIsExact(name);
    var rest := CutPrefix(name, TEMP_PREFIX);
    if rest.None? {
      return false;
    }
    var middle := CutSuffix(rest.value, TEMP_SUFFIX);
    if middle.None? {
      return false;
    }
    ok := IsAllDigits(middle.value);
  }

  // ---- Generated names ----------------------------------------------------

  const DIGITS: string := "0123456789"

  function Digit(d: nat): (c: char)
    requires d < 10
    ensures IsDigit(c) && (c as int) == '0' as int + d
  {
    DIGITS[d]
  }

  function Decimal(n: nat): (s: string)
    ensures s != [] && AllDigits(s)
  {
    if n < 10 then [Digit(n)] else Decimal(n / 10) + [Digit(n % 10)]
  }

  /** Reads a digit string back. */
  function Numeral(s: string): nat
    requires AllDigits(s)
  {
    if s == [] then 0 else 10 * Numeral(s[..|s| - 1]) + (s[|s| - 1] as int - '0' as int)
  }

  lemma {:induction false} DecimalRoundTrips(n: nat)
    ensures Numeral(Decimal(n)) == n
  {
    if n < 10 {
      assert Decimal(n)[..0] == [];
    } else {
      DecimalRoundTrips(n / 10);
      assert Decimal(n)[..|Decimal(n)| - 1] == Decimal(n / 10);
    }
  }

  /** The name built from one 64-bit draw. */
  function TempName(draw: nat): Name
    requires draw < TWO_TO_THE_64
  {
    TEMP_PREFIX + Decimal(draw) + TEMP_SUFFIX
  }

  lemma SameMiddle(prefix: string, x: string, y: string, suffix: string)
    requires prefix + x + suffix == prefix + y + suffix
    ensures x == y
  {
    var whole := prefix + x + suffix;
    assert |x| == |y|;
    assert x == whole[|prefix|..|prefix| + |x|] && y == whole[|prefix|..|prefix| + |y|];
  }

  /** Every draw gives a recognised name, and different draws give different names. */
  lemma DrawsAreRecognisedAndDistinct(a: nat, b: nat)
    requires a < 0x1_0000_0000_0000_0000 && b < 0x1_0000_0000_0000_0000
    ensures IsTempName(TempName(a))
    ensures TempName(a) == TempName(b) <==> a == b
  {
    assert HasTempShape(TempName(a));
    RecogniserIsExact(TempName(a));
    if TempName(a) == TempName(b) {
      SameMiddle(TEMP_PREFIX, Decimal(a), Decimal(b), TEMP_SUFFIX);
      DecimalRoundTrips(a);
      DecimalRoundTrips(b);
    }
  }
}
