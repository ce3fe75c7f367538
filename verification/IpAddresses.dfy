/** IPv4 and IPv6 parsing and the CIDR test of policy conditions. */
module IpAddresses {
  import opened Texts
  import opened Prelude
  import opened Bits

  // ----- Splitting text -----

  function Split(s: string, sep: char): (parts: seq<string>)
    ensures parts != [] && forall p | p in parts :: sep !in p
  {
    if s == "" then [""]
    else
      var rest := Split(s[1..], sep);
      if s[0] == sep then [""] + rest else [[s[0]] + rest[0]] + rest[1..]
  }

  function Join(parts: seq<string>, sep: char): string
    requires parts != []
  {
    if |parts| == 1 then parts[0] else parts[0] + [sep] + Join(parts[1..], sep)
  }

  lemma {:induction false} SplitPart(p: string, s: string, sep: char)
    requires sep !in p
    ensures var rest := Split(s, sep);
            Split(p + s, sep) == [p + rest[0]] + rest[1..]
  {
    if p == "" {
      assert p + s == s && "" + Split(s, sep)[0] == Split(s, sep)[0];
      assert Split(s, sep) == [Split(s, sep)[0]] + Split(s, sep)[1..];
    } else {
      assert (p + s)[1..] == p[1..] + s;
      SplitPart(p[1..], s, sep);
      assert p[0] in p;
      assert p + Split(s, sep)[0] == [p[0]] + (p[1..] + Split(s, sep)[0]);
    }
  }

  lemma {:induction false} SplitJoin(parts: seq<string>, sep: char)
    requires parts != [] && forall p | p in parts :: sep !in p
    ensures Split(Join(parts, sep), sep) == parts
  {
    if |parts| == 1 {
      SplitPart(parts[0], "", sep);
      assert parts[0] + "" == parts[0];
      assert parts == [parts[0]];
    } else {
      var rest := Join(parts[1..], sep);
      assert forall p | p in parts[1..] :: p in parts;
      SplitJoin(parts[1..], sep);
      SplitPart(parts[0], [sep] + rest, sep);
      SplitSeparator(rest, sep);
      assert parts[0] + [sep] + rest == parts[0] + ([sep] + rest);
      assert parts[0] + "" == parts[0] && parts == [parts[0]] + parts[1..];
    }
  }

  lemma SplitSeparator(s: string, sep: char)
    ensures Split([sep] + s, sep) == [""] + Split(s, sep)
  {
    assert ([sep] + s)[1..] == s;
  }

  // A "::" at position `j`.
  predicate DoubleAt(s: string, j: nat) { j + 1 < |s| && s[j] == ':' && s[j + 1] == ':' }

  // The first "::" at or after the start.
  function FindDouble(s: string): (i: Option<nat>)
    ensures i.Some? ==> DoubleAt(s, i.value) && forall j: nat | j < i.value :: !DoubleAt(s, j)
    ensures i.None? ==> forall j: nat :: !DoubleAt(s, j)
  {
    if |s| < 2 then None
    else if DoubleAt(s, 0) then Some(0)
    else
      var rest := FindDouble(s[1..]);
      assert forall j: nat | j > 0 :: DoubleAt(s, j) == DoubleAt(s[1..], j - 1);
      if rest.Some? then Some(rest.value + 1) else None
  }

  function SplitDouble(s: string): (parts: seq<string>)
    ensures parts != []
    decreases |s|
  {
    var i := FindDouble(s);
    if i.None? then [s] else [s[..i.value]] + SplitDouble(s[i.value + 2..])
  }

  // ----- Digits -----

  predicate IsDigit(c: char) { '0' <= c <= '9' }

  predicate IsHex(c: char) { IsDigit(c) || 'a' <= c <= 'f' || 'A' <= c <= 'F' }

  function DigitValue(c: char): (d: nat)
    requires IsHex(c)
    ensures d < 16 && (IsDigit(c) ==> d < 10)
  {
    if IsDigit(c) then c as int - '0' as int
    else if 'a' <= c <= 'f' then c as int - 'a' as int + 10
    else c as int - 'A' as int + 10
  }

  function NumberIn(s: string, radix: nat): nat
    requires forall c | c in s :: IsHex(c)
  {
    if s == "" then 0 else NumberIn(s[..|s| - 1], radix) * radix + DigitValue(s[|s| - 1])
  }

  predicate IsOctetText(s: string) { 1 <= |s| <= 3 && forall c | c in s :: IsDigit(c) }

  predicate IsGroupText(s: string) { 1 <= |s| <= 4 && forall c | c in s :: IsHex(c) }

  ghost function Limit(digits: nat): nat { if digits == 0 then 1 else 16 * Limit(digits - 1) }

  lemma {:induction false} NumberBelowLimit(s: string)
    requires forall c | c in s :: IsHex(c)
    ensures NumberIn(s, 16) < Limit(|s|)
  {
    if s != "" { NumberBelowLimit(s[..|s| - 1]); }
  }

  lemma GroupBound(s: string)
    requires IsGroupText(s)
    ensures NumberIn(s, 16) < 65536
  {
    NumberBelowLimit(s);
    assert Limit(1) == 16 && Limit(2) == 256 && Limit(3) == 4096 && Limit(4) == 65536;
  }

  // ----- Parsed values: digits in base 2^width, most significant first -----

  function Value(digits: seq<nat>, width: nat): nat {
    if digits == [] then 0 else ShiftLeft(Value(digits[..|digits| - 1], width), width) + digits[|digits| - 1]
  }

  lemma {:induction false} ValueBound(digits: seq<nat>, width: nat)
    requires forall d | d in digits :: d < Pow2(width)
    ensures Value(digits, width) < Pow2(width * |digits|)
  {
    if digits != [] {
      var n := |digits| - 1;
      assert forall d | d in digits[..n] :: d in digits;
      ValueBound(digits[..n], width);
      assert digits[n] in digits;
      ShiftedBound(Value(digits[..n], width), digits[n], width * n, width);
      assert width * n + width == width * |digits|;
    }
  }

  lemma ValueGrows(digits: seq<nat>, d: nat, width: nat)
    requires d < Pow2(width)
    ensures Value(digits + [d], width) == Or(ShiftLeft(Value(digits, width), width), d)
  {
    assert (digits + [d])[..|digits|] == digits;
    OrIsSum(Value(digits, width), d, width);
  }

  predicate IsOctet(s: string) { IsOctetText(s) && NumberIn(s, 10) <= 255 }

  lemma NextOctet(parts: seq<string>, i: nat)
    requires i < |parts| && IsOctet(parts[i])
    ensures Value(Octets(parts)[..i + 1], 8)
         == Or(ShiftLeft(Value(Octets(parts)[..i], 8), 8), NumberIn(parts[i], 10))
  {
    Pow2OfBytes();
    ValueGrows(Octets(parts)[..i], NumberIn(parts[i], 10), 8);
    assert Octets(parts)[..i + 1] == Octets(parts)[..i] + [NumberIn(parts[i], 10)];
  }

  method ParseIpv4(value: string) returns (parsed: Option<nat>)
    ensures parsed == Ipv4Of(value)
  {
    var parts := Split(value, '.');
    if |parts| != 4 { return None; }
    var result: nat := 0;
    for i := 0 to |parts|
      invariant forall j | 0 <= j < i :: IsOctet(parts[j])
      invariant result == Value(Octets(parts)[..i], 8)
    {
      if !IsOctetText(parts[i]) {
        assert parts[i] in parts && !IsOctet(parts[i]);
        return None;
      }
      var octet := NumberIn(parts[i], 10);
      if octet > 255 {
        assert parts[i] in parts && !IsOctet(parts[i]);
        return None;
      }
      NextOctet(parts, i);
      result := Or(ShiftLeft(result, 8), octet);
    }
    assert Octets(parts)[..|parts|] == Octets(parts);
    return Some(result);
  }

  function Octets(parts: seq<string>): (os: seq<nat>)
    ensures |os| == |parts|
    ensures forall i | 0 <= i < |parts| :: os[i] == if IsOctetText(parts[i]) then NumberIn(parts[i], 10) else 0
  {
    seq(|parts|, i requires 0 <= i < |parts| => if IsOctetText(parts[i]) then NumberIn(parts[i], 10) else 0)
  }

  function Groups(parts: seq<string>): (gs: seq<nat>)
    ensures |gs| == |parts|
    ensures forall i | 0 <= i < |parts| :: gs[i] == if IsGroupText(parts[i]) then NumberIn(parts[i], 16) else 0
  {
    seq(|parts|, i requires 0 <= i < |parts| => if IsGroupText(parts[i]) then NumberIn(parts[i], 16) else 0)
  }

  // The groups of a half; the empty half has none.
  function GroupsOf(part: string): Option<seq<nat>> {
    if part == "" then Some([])
    else
      var parts := Split(part, ':');
      if forall p | p in parts :: IsGroupText(p) then Some(Groups(parts)) else None
  }

  function Zeros(n: nat): seq<nat> { seq(n, _ => 0) }

  // Both halves, with zero groups in between to make eight; at least one must be missing.
  function Fill(head: Option<seq<nat>>, tail: Option<seq<nat>>): (gs: Option<seq<nat>>)
    ensures gs.Some? ==> |gs.value| == 8
  {
    if head.None? || tail.None? || |head.value| + |tail.value| > 7 then None
    else Some(head.value + Zeros(8 - |head.value| - |tail.value|) + tail.value)
  }

  // The eight groups of an IPv6 text.
  function Ipv6Groups(value: string): (gs: Option<seq<nat>>)
    ensures gs.Some? ==> |gs.value| == 8
  {
    GroupsOfHalves(value, SplitDouble(value))
  }

  function GroupsOfHalves(value: string, halves: seq<string>): (gs: Option<seq<nat>>)
    ensures gs.Some? ==> |gs.value| == 8
  {
    if |halves| > 2 then None
    else if |halves| == 2 then Fill(GroupsOf(halves[0]), GroupsOf(halves[1]))
    else
      var all := GroupsOf(value);
      if all.None? || |all.value| != 8 then None else all
  }

  method ParseGroups(part: string) returns (groups: Option<seq<nat>>)
    ensures groups == GroupsOf(part)
  {
    if part == "" { return Some([]); }
    var parts := Split(part, ':');
    var out: seq<nat> := [];
    for i := 0 to |parts|
      invariant out == Groups(parts[..i]) && forall p | p in parts[..i] :: IsGroupText(p)
    {
      if !IsGroupText(parts[i]) {
        assert parts[i] in parts;
        return None;
      }
      out := out + [NumberIn(parts[i], 16)];
      assert parts[..i + 1] == parts[..i] + [parts[i]];
    }
    assert parts[..|parts|] == parts;
    return Some(out);
  }

  method ParseIpv6(value: string) returns (parsed: Option<nat>)
    ensures var gs := Ipv6Groups(value);
            parsed == if gs.Some? then Some(Value(gs.value, 16)) else None
  {
    var groups := FillGroups(value, SplitDouble(value));
    if groups.None? { return None; }
    GroupsBounded(value);
    var result := CombineGroups(groups.value);
    return Some(result);
  }

  method FillGroups(value: string, halves: seq<string>) returns (groups: Option<seq<nat>>)
    ensures groups == GroupsOfHalves(value, halves)
  {
    if |halves| > 2 { return None; }
    if |halves| == 2 {
      var head := ParseGroups(halves[0]);
      var tail := ParseGroups(halves[1]);
      if head.None? || tail.None? { return None; }
      var fill := 8 - |head.value| - |tail.value|;
      if fill < 1 { return None; }
      groups := Some(head.value + Zeros(fill) + tail.value);
    } else {
      var all := ParseGroups(value);
      if all.None? || |all.value| != 8 { return None; }
      groups := all;
    }
  }

  method CombineGroups(groups: seq<nat>) returns (result: nat)
    requires forall g | g in groups :: g < 65536
    ensures result == Value(groups, 16)
  {
    result := 0;
    for i := 0 to |groups|
      invariant result == Value(groups[..i], 16)
    {
      Pow2OfBytes();
      assert groups[i] in groups;
      ValueGrows(groups[..i], groups[i], 16);
      result := Or(ShiftLeft(result, 16), groups[i]);
      assert groups[..i + 1] == groups[..i] + [groups[i]];
    }
    assert groups[..|groups|] == groups;
  }

  lemma GroupsOfBounded(part: string)
    ensures GroupsOf(part).Some? ==> forall g | g in GroupsOf(part).value :: g < 65536
  {
    if part != "" && GroupsOf(part).Some? {
      var parts := Split(part, ':');
      forall g | g in Groups(parts) ensures g < 65536 {
        var i :| 0 <= i < |parts| && Groups(parts)[i] == g;
        assert parts[i] in parts;
        GroupBound(parts[i]);
      }
    }
  }

  lemma GroupsBounded(value: string)
    ensures Ipv6Groups(value).Some? ==> forall g | g in Ipv6Groups(value).value :: g < 65536
  {
    var halves := SplitDouble(value);
    GroupsOfBounded(value);
    if |halves| == 2 {
      GroupsOfBounded(halves[0]);
      GroupsOfBounded(halves[1]);
    }
  }

  datatype ParsedIp = ParsedIp(bits: nat, value: nat)

  function Ipv4Of(value: string): Option<nat> {
    var parts := Split(value, '.');
    if |parts| == 4 && (forall p | p in parts :: IsOctet(p)) then Some(Value(Octets(parts), 8)) else None
  }

  function Ipv6Of(value: string): Option<nat> {
    var gs := Ipv6Groups(value);
    if gs.Some? then Some(Value(gs.value, 16)) else None
  }

  function ParseIp(value: string): Option<ParsedIp> {
    if ':' in value then
      var v := Ipv6Of(value);
      if v.Some? then Some(ParsedIp(128, v.value)) else None
    else
      var v := Ipv4Of(value);
      if v.Some? then Some(ParsedIp(32, v.value)) else None
  }

  // A parsed address fits its width.
  lemma ParsedIpFits(value: string)
    ensures ParseIp(value).Some? ==> var ip := ParseIp(value).value;
              ip.bits in {32, 128} && ip.value < Pow2(ip.bits)
  {
    if ':' in value {
      if Ipv6Groups(value).Some? {
        GroupsBounded(value);
        Pow2OfBytes();
        ValueBound(Ipv6Groups(value).value, 16);
      }
    } else if Ipv4Of(value).Some? {
      var parts := Split(value, '.');
      forall o | o in Octets(parts) ensures o < Pow2(8) {
        var i :| 0 <= i < |parts| && Octets(parts)[i] == o;
        assert parts[i] in parts;
        Pow2OfBytes();
      }
      ValueBound(Octets(parts), 8);
    }
  }

  // ----- CIDR membership -----

  // The base and the prefix length written in a CIDR text. `number` is the runtime's
  // conversion of text to an integer, None when it is not one.
  datatype Block = Block(base: Option<ParsedIp>, prefix: Option<int>)

  function ParseBlock(cidr: string, number: string -> Option<int>): Option<Block> {
    var slash := IndexOf(cidr, '/');
    if slash == |cidr| then None
    else Some(Block(ParseIp(cidr[..slash]), number(cidr[slash + 1..])))
  }

  function InBlock(ip: ParsedIp, block: Block): bool {
    if block.base.None? || block.base.value.bits != ip.bits then false
    else if block.prefix.None? || block.prefix.value < 0 || block.prefix.value > ip.bits then false
    else
      ShiftedOne(ip.bits);
      ShiftedOne(ip.bits - block.prefix.value);
      var all := ShiftLeft(1, ip.bits) - 1;
      var mask := Xor(all, ShiftLeft(1, ip.bits - block.prefix.value) - 1);
      And(ip.value, mask) == And(block.base.value.value, mask)
  }

  function ContainedIn(ip: ParsedIp, cidr: string, number: string -> Option<int>): bool {
    var block := ParseBlock(cidr, number);
    block.Some? && InBlock(ip, block.value)
  }

  // The first `prefix` of `bits` bits agree.
  ghost predicate SamePrefix(a: nat, b: nat, bits: nat, prefix: nat)
    requires prefix <= bits
  {
    forall i | bits - prefix <= i < bits :: Bit(a, i) == Bit(b, i)
  }

  lemma MaskTestIsPrefixTest(a: nat, b: nat, bits: nat, prefix: nat)
    requires a < Pow2(bits) && b < Pow2(bits) && prefix <= bits
    ensures ShiftLeft(1, bits) >= 1 && ShiftLeft(1, bits - prefix) >= 1
    ensures var mask := Xor(ShiftLeft(1, bits) - 1, ShiftLeft(1, bits - prefix) - 1);
            And(a, mask) == And(b, mask) <==> SamePrefix(a, b, bits, prefix)
  {
    var k := bits - prefix;
    ShiftedOne(bits);
    ShiftedOne(k);
    XorOfMasks(bits, k);
    AndWithMask(a, bits, k);
    AndWithMask(b, bits, k);
    HighPartIsShift(a, b, k);
    ShiftRightIsBits(a, b, bits, k);
  }

  // The mask test holds exactly when address and base have the same width and agree in the
  // leading prefix bits.
  lemma InBlockIsPrefixMatch(ip: ParsedIp, block: Block)
    requires ip.value < Pow2(ip.bits)
    requires block.base.Some? ==> block.base.value.value < Pow2(block.base.value.bits)
    ensures InBlock(ip, block) <==>
              && block.base.Some? && block.base.value.bits == ip.bits
              && block.prefix.Some? && 0 <= block.prefix.value <= ip.bits
              && SamePrefix(ip.value, block.base.value.value, ip.bits, block.prefix.value)
  {
    if block.base.Some? && block.base.value.bits == ip.bits && block.prefix.Some?
        && 0 <= block.prefix.value <= ip.bits {
      MaskTestIsPrefixTest(ip.value, block.base.value.value, ip.bits, block.prefix.value);
    }
  }

  lemma ContainedInIsPrefixMatch(text: string, cidr: string, number: string -> Option<int>)
    requires ParseIp(text).Some?
    ensures var ip, block := ParseIp(text).value, ParseBlock(cidr, number);
            ContainedIn(ip, cidr, number) <==>
              && block.Some?
              && block.value.base.Some? && block.value.base.value.bits == ip.bits
              && block.value.prefix.Some? && 0 <= block.value.prefix.value <= ip.bits
              && SamePrefix(ip.value, block.value.base.value.value, ip.bits, block.value.prefix.value)
  {
    ParsedIpFits(text);
    var slash := IndexOf(cidr, '/');
    if slash < |cidr| {
      ParsedIpFits(cidr[..slash]);
      InBlockIsPrefixMatch(ParseIp(text).value, ParseBlock(cidr, number).value);
    }
  }

  // ----- Zero compression -----

  ghost predicate GroupTexts(parts: seq<string>) {
    forall p | p in parts :: IsGroupText(p)
  }

  function JoinGroups(parts: seq<string>): string {
    if parts == [] then "" else Join(parts, ':')
  }

  // No "::" inside, and no ':' at either end.
  ghost predicate Plain(s: string) {
    && (forall j: nat :: !DoubleAt(s, j))
    && (s != "" ==> s[0] != ':' && s[|s| - 1] != ':')
  }

  lemma {:induction false} JoinIsPlain(parts: seq<string>)
    requires GroupTexts(parts)
    ensures Plain(JoinGroups(parts)) && (parts != [] ==> JoinGroups(parts) != "")
  {
    if parts != [] {
      assert parts[0] in parts;
      GroupHasNoColon(parts[0]);
      if |parts| > 1 {
        assert forall p | p in parts[1..] :: p in parts;
        JoinIsPlain(parts[1..]);
        assert Join(parts, ':') == parts[0] + [':'] + Join(parts[1..], ':');
        PrefixedIsPlain(parts[0], Join(parts[1..], ':'));
      }
    }
  }

  lemma GroupHasNoColon(part: string)
    requires IsGroupText(part)
    ensures part != "" && forall i | 0 <= i < |part| :: part[i] != ':'
  {
    assert forall i | 0 <= i < |part| :: part[i] in part;
  }

  lemma PrefixedIsPlain(part: string, rest: string)
    requires part != "" && (forall i | 0 <= i < |part| :: part[i] != ':') && Plain(rest) && rest != ""
    ensures Plain(part + [':'] + rest)
  {
    var s := part + [':'] + rest;
    forall j: nat ensures !DoubleAt(s, j) {
      if |part| < j < |s| - 1 {
        assert s[j] == rest[j - |part| - 1] && s[j + 1] == rest[j - |part|];
        assert !DoubleAt(rest, j - |part| - 1);
      } else if j == |part| {
        assert s[j + 1] == rest[0];
      }
    }
    assert s[|s| - 1] == rest[|rest| - 1];
  }

  lemma GroupsOfJoin(parts: seq<string>)
    requires GroupTexts(parts)
    ensures GroupsOf(JoinGroups(parts)) == Some(Groups(parts))
  {
    JoinIsPlain(parts);
    if parts != [] {
      forall p | p in parts ensures ':' !in p { assert IsGroupText(p); }
      SplitJoin(parts, ':');
    }
  }

  lemma SplitDoubleOnce(h: string, t: string)
    requires Plain(h) && Plain(t)
    ensures SplitDouble(h + "::" + t) == [h, t]
  {
    var s := h + "::" + t;
    assert DoubleAt(s, |h|);
    forall j: nat | j < |h| ensures !DoubleAt(s, j) {
      assert s[j] == h[j] && !DoubleAt(h, j);
    }
    var i := FindDouble(s);
    assert i == Some(|h|);
    assert s[..|h|] == h && s[|h| + 2..] == t;
    assert SplitDouble(t) == [t];
  }

  lemma ExpandedGroups(all: seq<string>)
    requires GroupTexts(all) && |all| == 8
    ensures Ipv6Groups(JoinGroups(all)) == Some(Groups(all))
  {
    JoinIsPlain(all);
    GroupsOfJoin(all);
    OneHalf(JoinGroups(all));
  }

  lemma OneHalf(s: string)
    requires Plain(s)
    ensures SplitDouble(s) == [s]
  {
  }

  lemma CompressedHalves(head: seq<string>, tail: seq<string>)
    requires GroupTexts(head) && GroupTexts(tail)
    ensures SplitDouble(JoinGroups(head) + "::" + JoinGroups(tail)) == [JoinGroups(head), JoinGroups(tail)]
  {
    JoinIsPlain(head);
    JoinIsPlain(tail);
    SplitDoubleOnce(JoinGroups(head), JoinGroups(tail));
  }

  lemma CompressedGroups(head: seq<string>, tail: seq<string>)
    requires GroupTexts(head) && GroupTexts(tail)
    ensures Ipv6Groups(JoinGroups(head) + "::" + JoinGroups(tail)) == Fill(Some(Groups(head)), Some(Groups(tail)))
  {
    CompressedHalves(head, tail);
    GroupsOfJoin(head);
    GroupsOfJoin(tail);
  }

  lemma FilledValue(compressed: string, expanded: string, x: seq<nat>, y: seq<nat>)
    requires |x| + |y| <= 7 && Ipv6Groups(compressed) == Fill(Some(x), Some(y))
    requires Ipv6Groups(expanded) == Some(x + Zeros(8 - |x| - |y|) + y)
    ensures Ipv6Of(compressed).Some? && Ipv6Of(compressed) == Ipv6Of(expanded)
  {
  }

  // "::" stands for the missing zero groups: it parses to the number of the eight-group text.
  lemma CompressedIsExpanded(head: seq<string>, tail: seq<string>)
    requires GroupTexts(head) && GroupTexts(tail) && |head| + |tail| <= 7
    ensures var compressed := JoinGroups(head) + "::" + JoinGroups(tail);
            var expanded := JoinGroups(head + ZeroTexts(8 - |head| - |tail|) + tail);
            Ipv6Of(compressed).Some? && Ipv6Of(compressed) == Ipv6Of(expanded)
  {
    var n := 8 - |head| - |tail|;
    CompressedGroups(head, tail);
    ExpandedFilled(head, n, tail);
    FilledValue(JoinGroups(head) + "::" + JoinGroups(tail), JoinGroups(head + ZeroTexts(n) + tail), Groups(head),
        Groups(tail));
  }

  lemma ExpandedFilled(head: seq<string>, n: nat, tail: seq<string>)
    requires GroupTexts(head) && GroupTexts(tail) && |head| + n + |tail| == 8
    ensures Ipv6Groups(JoinGroups(head + ZeroTexts(n) + tail)) == Some(Groups(head) + Zeros(n) + Groups(tail))
  {
    FilledGroups(head, n, tail);
    ExpandedGroups(head + ZeroTexts(n) + tail);
  }

  function ZeroTexts(n: nat): seq<string> { seq(n, _ => "0") }

  lemma FilledGroups(head: seq<string>, n: nat, tail: seq<string>)
    requires GroupTexts(head) && GroupTexts(tail)
    ensures GroupTexts(head + ZeroTexts(n) + tail)
    ensures Groups(head + ZeroTexts(n) + tail) == Groups(head) + Zeros(n) + Groups(tail)
  {
    ZeroTextsAreZeros(n);
    GroupsConcat(head, ZeroTexts(n));
    GroupsConcat(head + ZeroTexts(n), tail);
  }

  lemma ZeroTextsAreZeros(n: nat)
    ensures GroupTexts(ZeroTexts(n)) && Groups(ZeroTexts(n)) == Zeros(n)
  {
    assert IsGroupText("0");
    assert NumberIn("0", 16) == 0 by { assert "0"[..0] == ""; }
  }

  lemma GroupsConcat(xs: seq<string>, ys: seq<string>)
    ensures Groups(xs + ys) == Groups(xs) + Groups(ys)
    ensures GroupTexts(xs) && GroupTexts(ys) ==> GroupTexts(xs + ys)
  {
  }
}
