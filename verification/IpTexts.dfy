/** Every address is parsed from its own text: dotted decimal octets, or eight hexadecimal groups. */
module IpTexts {
  import opened Prelude
  import opened Bits
  import opened IpAddresses

  const DIGITS := "0123456789abcdef"

  function Quotient(v: nat, m: nat): (q: nat)
    requires m > 0
    ensures m >= 2 && v > 0 ==> q < v
  {
    v / m
  }

  function Remainder(v: nat, m: nat): (r: nat)
    requires m > 0
    ensures r < m
  {
    v % m
  }

  // The numeral of `n`, without leading zeros.
  function Numeral(n: nat, radix: nat): (s: string)
    requires 2 <= radix <= 16
    ensures s != ""
  {
    if n < radix then [DIGITS[n]] else Numeral(Quotient(n, radix), radix) + [DIGITS[Remainder(n, radix)]]
  }

  lemma DigitIs(d: nat)
    requires d < 16
    ensures IsHex(DIGITS[d]) && DigitValue(DIGITS[d]) == d && (IsDigit(DIGITS[d]) <==> d < 10)
    ensures DIGITS[d] != ':' && DIGITS[d] != '.'
  {
    assert DIGITS == ['0', '1', '2', '3', '4', '5', '6', '7', '8', '9', 'a', 'b', 'c', 'd', 'e', 'f'];
  }

  // Hexadecimal digits without a separator, decimal ones below radix 11.
  ghost predicate Plain(s: string, radix: nat) {
    forall c | c in s :: IsHex(c) && c != ':' && c != '.' && (radix <= 10 ==> IsDigit(c))
  }

  lemma Appended(s: string, d: nat, radix: nat)
    requires d < radix <= 16 && Plain(s, radix)
    ensures Plain(s + [DIGITS[d]], radix)
    ensures NumberIn(s + [DIGITS[d]], radix) == NumberIn(s, radix) * radix + d
  {
    DigitIs(d);
    var s' := s + [DIGITS[d]];
    assert s'[..|s'| - 1] == s && s'[|s'| - 1] == DIGITS[d];
  }

  lemma Division(n: nat, m: nat)
    requires m > 0
    ensures n == Quotient(n, m) * m + Remainder(n, m)
  {
  }

  lemma {:induction false} NumeralReads(n: nat, radix: nat)
    requires 2 <= radix <= 16
    ensures Plain(Numeral(n, radix), radix) && NumberIn(Numeral(n, radix), radix) == n
  {
    if n < radix {
      Appended("", n, radix);
      assert "" + [DIGITS[n]] == [DIGITS[n]];
    } else {
      NumeralReads(Quotient(n, radix), radix);
      Division(n, radix);
      Appended(Numeral(Quotient(n, radix), radix), Remainder(n, radix), radix);
    }
  }

  // A numeral has as many digits as the number needs.
  ghost function Power(radix: nat, k: nat): nat { if k == 0 then 1 else Power(radix, k - 1) * radix }

  lemma {:induction false} NumeralIsShort(n: nat, radix: nat, k: nat)
    requires 2 <= radix <= 16 && k > 0 && n < Power(radix, k)
    ensures |Numeral(n, radix)| <= k
  {
    if n >= radix {
      PowerOfOne(radix);
      QuotientBelow(n, radix, Power(radix, k - 1));
      NumeralIsShort(Quotient(n, radix), radix, k - 1);
    }
  }

  lemma PowerOfOne(radix: nat)
    ensures Power(radix, 1) == radix
  {
    assert Power(radix, 0) == 1;
  }

  lemma QuotientBelow(n: nat, radix: nat, bound: nat)
    requires radix > 0 && n < bound * radix
    ensures Quotient(n, radix) < bound
  {
    Division(n, radix);
    if Quotient(n, radix) >= bound { ProductGrows(bound, Quotient(n, radix), radix); }
  }

  lemma ProductGrows(a: nat, b: nat, c: nat)
    requires a <= b
    ensures a * c <= b * c
  {
  }

  lemma OctetNumeral(n: nat)
    requires n < 256
    ensures var s := Numeral(n, 10); IsOctet(s) && NumberIn(s, 10) == n && '.' !in s && ':' !in s
  {
    NumeralReads(n, 10);
    assert Power(10, 0) == 1 && Power(10, 1) == 10 && Power(10, 2) == 100 && Power(10, 3) == 1000;
    NumeralIsShort(n, 10, 3);
  }

  lemma GroupNumeral(n: nat)
    requires n < 65536
    ensures var s := Numeral(n, 16); IsGroupText(s) && NumberIn(s, 16) == n
  {
    NumeralReads(n, 16);
    assert Power(16, 0) == 1 && Power(16, 1) == 16 && Power(16, 2) == 256 && Power(16, 3) == 4096;
    assert Power(16, 4) == 65536;
    NumeralIsShort(n, 16, 4);
  }

  // ----- An address as its digits -----

  // The `count` lowest digits of `v` in base 2^width, most significant first.
  function DigitsOf(v: nat, width: nat, count: nat): (ds: seq<nat>)
    ensures |ds| == count
  {
    if count == 0 then []
    else DigitsOf(Quotient(v, Pow2(width)), width, count - 1) + [Remainder(v, Pow2(width))]
  }

  lemma {:induction false} DigitsAreBelow(v: nat, width: nat, count: nat)
    ensures forall d | d in DigitsOf(v, width, count) :: d < Pow2(width)
  {
    if count > 0 { DigitsAreBelow(Quotient(v, Pow2(width)), width, count - 1); }
  }

  lemma DoubleProduct(a: nat, p: nat)
    ensures 2 * (a * p) == a * (2 * p)
  {
  }

  lemma {:induction false} ShiftIsProduct(a: nat, k: nat)
    ensures ShiftLeft(a, k) == a * Pow2(k)
  {
    if k > 0 {
      ShiftIsProduct(a, k - 1);
      DoubleProduct(a, Pow2(k - 1));
    }
  }

  lemma LastDigit(v: nat, width: nat)
    ensures ShiftLeft(Quotient(v, Pow2(width)), width) + Remainder(v, Pow2(width)) == v
  {
    ShiftIsProduct(Quotient(v, Pow2(width)), width);
    Division(v, Pow2(width));
  }

  lemma {:induction false} DigitsHaveValue(v: nat, width: nat, count: nat)
    requires v < Power(Pow2(width), count)
    ensures Value(DigitsOf(v, width, count), width) == v
  {
    if count > 0 {
      var ds, q := DigitsOf(v, width, count), Quotient(v, Pow2(width));
      QuotientBelow(v, Pow2(width), Power(Pow2(width), count - 1));
      DigitsHaveValue(q, width, count - 1);
      assert ds[..count - 1] == DigitsOf(q, width, count - 1);
      LastDigit(v, width);
    }
  }

  lemma {:induction false} PowersMultiply(a: nat, b: nat)
    ensures Pow2(a + b) == Pow2(a) * Pow2(b)
  {
    if b > 0 {
      PowersMultiply(a, b - 1);
      DoubleProduct(Pow2(a), Pow2(b - 1));
    }
  }

  lemma {:induction false} PowerOfPow2(width: nat, count: nat, total: nat)
    requires total == width * count
    ensures Power(Pow2(width), count) == Pow2(total)
  {
    if count > 0 {
      assert total - width == width * (count - 1) by { Distributes(width, count); }
      PowerOfPow2(width, count - 1, total - width);
      PowersMultiply(total - width, width);
    }
  }

  lemma Distributes(width: nat, count: nat)
    requires count > 0
    ensures width * count - width == width * (count - 1)
  {
  }

  function Numerals(ds: seq<nat>, radix: nat): (texts: seq<string>)
    requires 2 <= radix <= 16
    ensures |texts| == |ds| && forall i | 0 <= i < |ds| :: texts[i] == Numeral(ds[i], radix)
  {
    seq(|ds|, i requires 0 <= i < |ds| => Numeral(ds[i], radix))
  }

  // ----- Main results -----

  function Ipv4Text(v: nat): string {
    Join(Numerals(DigitsOf(v, 8, 4), 10), '.')
  }

  function Ipv6Text(v: nat): string { JoinGroups(Numerals(DigitsOf(v, 16, 8), 16)) }

  lemma {:induction false} JoinHasNone(parts: seq<string>, sep: char, c: char)
    requires parts != [] && sep != c && forall p | p in parts :: c !in p
    ensures c !in Join(parts, sep)
  {
    if |parts| > 1 {
      assert forall p | p in parts[1..] :: p in parts;
      JoinHasNone(parts[1..], sep, c);
    }
    assert parts[0] in parts;
  }

  lemma JoinHasSeparator(parts: seq<string>, sep: char)
    requires |parts| > 1
    ensures sep in Join(parts, sep)
  {
    assert Join(parts, sep) == parts[0] + [sep] + Join(parts[1..], sep);
    assert Join(parts, sep)[|parts[0]|] == sep;
  }

  lemma OctetsOfNumerals(ds: seq<nat>)
    requires forall d | d in ds :: d < 256
    ensures var texts := Numerals(ds, 10);
            && (forall p | p in texts :: IsOctet(p) && '.' !in p && ':' !in p)
            && Octets(texts) == ds
  {
    forall i | 0 <= i < |ds|
      ensures IsOctet(Numerals(ds, 10)[i]) && '.' !in Numerals(ds, 10)[i] && ':' !in Numerals(ds, 10)[i]
      ensures Octets(Numerals(ds, 10))[i] == ds[i]
    {
      assert ds[i] in ds;
      OctetNumeral(ds[i]);
    }
  }

  // Every IPv4 address is parsed from its dotted decimal text.
  lemma Ipv4TextParses(v: nat)
    requires v < Pow2(32)
    ensures ParseIp(Ipv4Text(v)) == Some(ParsedIp(32, v))
  {
    Pow2OfBytes();
    var ds := DigitsOf(v, 8, 4);
    DigitsAreBelow(v, 8, 4);
    var texts := Numerals(ds, 10);
    OctetsOfNumerals(ds);
    JoinHasNone(texts, '.', ':');
    SplitJoin(texts, '.');
    PowerOfPow2(8, 4, 32);
    DigitsHaveValue(v, 8, 4);
  }

  lemma GroupsOfNumerals(ds: seq<nat>)
    requires forall d | d in ds :: d < 65536
    ensures GroupTexts(Numerals(ds, 16)) && Groups(Numerals(ds, 16)) == ds
  {
    forall i | 0 <= i < |ds|
      ensures IsGroupText(Numerals(ds, 16)[i]) && Groups(Numerals(ds, 16))[i] == ds[i]
    {
      assert ds[i] in ds;
      GroupNumeral(ds[i]);
    }
  }

  // Every IPv6 address is parsed from its eight hexadecimal groups.
  lemma Ipv6TextParses(v: nat)
    requires v < Pow2(128)
    ensures ParseIp(Ipv6Text(v)) == Some(ParsedIp(128, v))
  {
    Pow2OfBytes();
    var ds := DigitsOf(v, 16, 8);
    DigitsAreBelow(v, 16, 8);
    GroupsOfNumerals(ds);
    ExpandedGroups(Numerals(ds, 16));
    JoinHasSeparator(Numerals(ds, 16), ':');
    PowerOfPow2(16, 8, 128);
    DigitsHaveValue(v, 16, 8);
  }
}
