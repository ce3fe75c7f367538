/** Reading JSON string literals (RFC 8259, section 7), and that escaping is undone by it. */
module JsonLiterals {
  import opened Prelude
  import opened CanonicalJson

  // The value of a hexadecimal digit.
  function HexValue(c: char): Option<nat> {
    if '0' <= c <= '9' then Some(c as int - '0' as int)
    else if 'a' <= c <= 'f' then Some(c as int - 'a' as int + 10)
    else if 'A' <= c <= 'F' then Some(c as int - 'A' as int + 10)
    else None
  }

  // The number four hexadecimal digits stand for.
  function HexNumber(digits: string): Option<nat>
    requires |digits| == 4
  {
    var a, b, c, d := HexValue(digits[0]), HexValue(digits[1]), HexValue(digits[2]), HexValue(digits[3]);
    if a.Some? && b.Some? && c.Some? && d.Some?
    then Some(a.value * 4096 + b.value * 256 + c.value * 16 + d.value) else None
  }

  // What a two-character escape stands for.
  function ShortEscape(c: char): Option<char> {
    match c
    case '"' => Some('"')
    case '\\' => Some('\\')
    case '/' => Some('/')
    case 'b' => Some(8 as char)
    case 'f' => Some(12 as char)
    case 'n' => Some('\n')
    case 'r' => Some('\r')
    case 't' => Some('\t')
    case _ => None
  }

  datatype Read = Read(c: char, length: nat)

  // The character at the head of a literal and the length of its text. Control characters must
  // be escaped; surrogates are not characters of this model.
  function ReadChar(text: string): (r: Option<Read>)
    ensures r.Some? ==> 1 <= r.value.length <= |text|
  {
    if text == "" || text[0] == '"' || text[0] < ' ' then None
    else if text[0] != '\\' then Some(Read(text[0], 1))
    else if |text| >= 6 && text[1] == 'u' then
      var code := HexNumber(text[2..6]);
      if code.Some? && (code.value < 0xD800 || 0xE000 <= code.value < 0x11_0000)
      then Some(Read(code.value as char, 6)) else None
    else if |text| >= 2 && ShortEscape(text[1]).Some? then Some(Read(ShortEscape(text[1]).value, 2))
    else None
  }

  // The string a literal stands for, up to its closing quote, and what comes after.
  function ReadLiteral(text: string): Option<(string, string)> {
    if text != "" && text[0] == '"' then Some(("", text[1..]))
    else
      var first := ReadChar(text);
      if first.None? then None
      else
        var rest := ReadLiteral(text[first.value.length..]);
        if rest.None? then None else Some(([first.value.c] + rest.value.0, rest.value.1))
  }

  lemma HexDigitReads(d: nat)
    requires d < 16
    ensures HexValue(HexDigit(d)) == Some(d)
  {
  }

  lemma EscapeReads(c: char, rest: string)
    ensures ReadChar(Escape(c) + rest) == Some(Read(c, |Escape(c)|))
  {
    var e := Escape(c);
    var text := e + rest;
    assert forall i | 0 <= i < |e| :: text[i] == e[i];
    if |e| == 6 {
      assert text[2..6] == e[2..6];
      HexDigitReads(c as int / 16);
      HexDigitReads(c as int % 16);
    }
  }

  // Reading an escaped literal gives the string back, whatever follows it.
  lemma {:induction false} LiteralRoundTrip(s: string, rest: string)
    ensures ReadLiteral(LiteralRest(s) + rest) == Some((s, rest))
  {
    var text := LiteralRest(s) + rest;
    if s == "" {
      assert text[1..] == rest;
    } else {
      var e := Escape(s[0]);
      assert LiteralRest(s) == e + LiteralRest(s[1..]);
      assert text == e + (LiteralRest(s[1..]) + rest);
      EscapeReads(s[0], LiteralRest(s[1..]) + rest);
      LiteralRoundTrip(s[1..], rest);
      assert text[|e|..] == LiteralRest(s[1..]) + rest;
      assert [s[0]] + s[1..] == s;
    }
  }
}
