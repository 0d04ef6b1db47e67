/** Decimal text, as Python's str() and int() produce and read it for the
    integer ids that the integration turns into unique ids and option keys. */
module Text {
  import opened Wrappers

  predicate IsDigit(c: char) { '0' <= c <= '9' }

  predicate AllDigits(s: string) {
    forall i :: 0 <= i < |s| ==> IsDigit(s[i])
  }

  function DigitChar(d: nat): (c: char)
    requires d < 10
    ensures IsDigit(c)
  {
    "0123456789"[d]
  }

  function DigitValue(c: char): (d: nat)
    requires IsDigit(c)
    ensures d < 10
  {
    c as int - '0' as int
  }

  /** str(n) for a non-negative integer n: digits only, no leading zero. */
  function NatToString(n: nat): (s: string)
    ensures |s| >= 1 && AllDigits(s)
    ensures n >= 10 ==> s[0] != '0'
  {
    if n < 10 then [DigitChar(n)] else NatToString(n / 10) + [DigitChar(n % 10)]
  }

  /** str(i) for any integer i. */
  function IntToString(i: int): string {
    if i < 0 then "-" + NatToString(-i) else NatToString(i)
  }

  /** The number a string of decimal digits denotes (leading zeros allowed). */
  function DigitsValue(s: string): nat
    requires AllDigits(s)
  {
    if |s| == 0 then 0 else DigitsValue(s[..|s| - 1]) * 10 + DigitValue(s[|s| - 1])
  }

  /** int(s) restricted to an optional '-' followed by decimal digits; every
      other string is a ValueError, returned here as None. */
  function ParseInt(s: string): Option<int> {
    if |s| > 1 && s[0] == '-' && AllDigits(s[1..]) then var v: int := DigitsValue(s[1..]); Some(-v)
    else if |s| > 0 && AllDigits(s) then Some(DigitsValue(s))
    else None
  }

  lemma {:induction false} DigitsValueOfNatToString(n: nat)
    ensures DigitsValue(NatToString(n)) == n
  {
    if n >= 10 {
      var s := NatToString(n / 10);
      DigitsValueOfNatToString(n / 10);
      var t := s + [DigitChar(n % 10)];
      assert t[..|t| - 1] == s;
      assert DigitValue(t[|t| - 1]) == n % 10 by {
        assert "0123456789"[n % 10] as int - '0' as int == n % 10;
      }
    } else {
      assert DigitValue("0123456789"[n]) == n;
    }
  }

  lemma ParseIntOfNegative(s: string)
    requires |s| >= 1 && AllDigits(s)
    ensures var v: int := DigitsValue(s); ParseInt("-" + s) == Some(-v)
  {
    assert ("-" + s)[1..] == s;
  }

  lemma ParseIntOfDigits(s: string)
    requires |s| >= 1 && AllDigits(s)
    ensures ParseInt(s) == Some(DigitsValue(s))
  {
    assert IsDigit(s[0]);
  }

  /** int(str(i)) == i: the option keys the integration writes read back. */
  lemma ParseIntOfIntToString(i: int)
    ensures ParseInt(IntToString(i)) == Some(i)
  {
    if i < 0 {
      ParseIntOfNegativeString(i);
    } else {
      ParseIntOfNatString(i);
    }
  }

  lemma ParseIntOfNegativeString(i: int)
    requires i < 0
    ensures ParseInt(IntToString(i)) == Some(i)
  {
    var n: nat := -i;
    var s := NatToString(n);
    DigitsValueOfNatToString(n);
    assert IntToString(i) == "-" + s;
    ParseIntOfNegative(s);
  }

  lemma ParseIntOfNatString(n: nat)
    ensures ParseInt(IntToString(n)) == Some(n)
  {
    var s := NatToString(n);
    DigitsValueOfNatToString(n);
    ParseIntOfDigits(s);
    assert IntToString(n) == s;
  }

  lemma NatToStringInjective(a: nat, b: nat)
    requires NatToString(a) == NatToString(b)
    ensures a == b
  {
    DigitsValueOfNatToString(a);
    DigitsValueOfNatToString(b);
  }

  lemma NatToStringDistinct(a: nat, b: nat)
    requires a != b
    ensures NatToString(a) != NatToString(b)
  {
    DigitsValueOfNatToString(a);
    DigitsValueOfNatToString(b);
  }

  /** Appending the same suffix keeps distinct strings distinct. */
  lemma AppendDistinct(s1: string, s2: string, suffix: string)
    requires s1 != s2
    ensures s1 + suffix != s2 + suffix
  {
    assert (s1 + suffix)[..|s1|] == s1;
    assert (s2 + suffix)[..|s2|] == s2;
  }

  /** Prepending the same prefix keeps distinct strings distinct. */
  lemma PrependDistinct(prefix: string, s1: string, s2: string)
    requires s1 != s2
    ensures prefix + s1 != prefix + s2
  {
    assert (prefix + s1)[|prefix|..] == s1;
    assert (prefix + s2)[|prefix|..] == s2;
  }

  /** In x + sep + y, the first non-digit sits right after the digits of x. */
  lemma DigitsThenSeparator(x: string, sep: string, y: string)
    requires AllDigits(x)
    requires |sep| > 0 && !IsDigit(sep[0])
    ensures forall i :: 0 <= i < |x| ==> IsDigit((x + sep + y)[i])
    ensures !IsDigit((x + sep + y)[|x|])
  {
  }

  /** A digit string followed by a separator that starts with a non-digit
      can be split in only one way. */
  lemma DigitPrefixUnique(x1: string, y1: string, x2: string, y2: string, sep: string)
    requires AllDigits(x1) && AllDigits(x2)
    requires |sep| > 0 && !IsDigit(sep[0])
    requires x1 + sep + y1 == x2 + sep + y2
    ensures x1 == x2 && y1 == y2
  {
    var s := x1 + sep + y1;
    DigitsThenSeparator(x1, sep, y1);
    DigitsThenSeparator(x2, sep, y2);
    assert |x1| == |x2|;
    assert x1 == s[..|x1|] == x2;
    assert y1 == s[|x1| + |sep|..] == y2;
  }

  /** The "{node.id}-{platform}-{attribute.id}" unique id of a per-attribute entity. */
  function EntityUniqueId(nodeId: int, platform: string, attributeId: int): string {
    IntToString(nodeId) + "-" + platform + "-" + IntToString(attributeId)
  }

  /** x + "-" + p + "-" + y read as x, the separator, and the rest. */
  lemma Regroup(x: string, p: string, y: string)
    ensures x + "-" + p + "-" + y == x + "-" + (p + "-" + y)
  {
  }

  /** For non-negative ids, equal unique ids mean the same node id and the
      same attribute id. */
  lemma EntityUniqueIdInjective(platform: string, n1: nat, a1: nat, n2: nat, a2: nat)
    requires EntityUniqueId(n1, platform, a1) == EntityUniqueId(n2, platform, a2)
    ensures n1 == n2 && a1 == a2
  {
    var x1, y1 := NatToString(n1), NatToString(a1);
    var x2, y2 := NatToString(n2), NatToString(a2);
    var s := EntityUniqueId(n1, platform, a1);
    assert s == x1 + "-" + platform + "-" + y1;
    assert s == x2 + "-" + platform + "-" + y2;
    var r1, r2 := platform + "-" + y1, platform + "-" + y2;
    Regroup(x1, platform, y1);
    Regroup(x2, platform, y2);
    DigitPrefixUnique(x1, r1, x2, r2, "-");
    assert y1 == r1[|platform| + 1..] && y2 == r2[|platform| + 1..];
    NatToStringInjective(n1, n2);
    NatToStringInjective(a1, a2);
  }
}
