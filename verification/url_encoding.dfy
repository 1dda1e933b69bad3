/** Percent-encoding can be undone (section 2.1 of RFC 3986). */
module UrlEncoding {
  import opened Common
  import opened UrlTemplate

  const DIGITS := "0123456789ABCDEF"

  const UPPER := "ABCDEFGHIJKLMNOPQRSTUVWXYZ"
  const LOWER := "abcdefghijklmnopqrstuvwxyz"
  const OTHERS := "0123456789_.-~"

  predicate IsListed(c: char) { c in UPPER || c in LOWER || c in OTHERS }

  /** A place of the character; there is one at most in `DIGITS`. */
  ghost function PositionIn(s: string, c: char): (r: Option<nat>)
    ensures r.Some? ==> r.value < |s| && s[r.value] == c
    ensures r.None? ==> c !in s
  {
    if c in s then
      var i: nat :| i < |s| && s[i] == c;
      Some(i)
    else None
  }

  /** Reading a percent-encoded text: `%XY` is a byte, any other ASCII character stands for itself. */
  ghost function Unquote(s: string): Option<seq<Byte>> {
    if s == "" then Some([])
    else if s[0] != '%' then
      if s[0] as int < 0x80 then Prepended(s[0] as int, Unquote(s[1..])) else None
    else if |s| < 3 then None
    else
      var x, y := PositionIn(DIGITS, s[1]), PositionIn(DIGITS, s[2]);
      if x.Some? && y.Some? then Prepended(16 * x.value + y.value, Unquote(s[3..])) else None
  }

  function Prepended(byte: int, bytes: Option<seq<Byte>>): Option<seq<Byte>> {
    if bytes.Some? && 0 <= byte < 0x100 then Some([byte] + bytes.value) else None
  }

  lemma DigitAt(n: nat)
    requires n < 16
    ensures DIGITS[n] == HexDigit(n)
  {
  }

  lemma DigitIsRead(n: nat)
    requires n < 16
    ensures PositionIn(DIGITS, HexDigit(n)) == Some(n)
  {
    DigitAt(n);
    var r := PositionIn(DIGITS, HexDigit(n));
    assert DIGITS[n] in DIGITS;
    DigitAt(r.value);
  }

  lemma UpperIsListed(c: char)
    ensures 'A' <= c <= 'Z' <==> c in UPPER
  {
    if 'A' <= c <= 'Z' { assert UPPER[c as int - 'A' as int] == c; }
  }

  lemma LowerIsListed(c: char)
    ensures 'a' <= c <= 'z' <==> c in LOWER
  {
    if 'a' <= c <= 'z' { assert LOWER[c as int - 'a' as int] == c; }
  }

  lemma OtherIsListed(c: char)
    ensures '0' <= c <= '9' || c in "_.-~" <==> c in OTHERS
  {
    var i := if '0' <= c <= '9' then c as int - '0' as int
      else if c == '_' then 10 else if c == '.' then 11 else if c == '-' then 12 else 13;
    if '0' <= c <= '9' || c in "_.-~" { assert OTHERS[i] == c; }
  }

  lemma UnreservedIsListed(c: char)
    ensures IsUnreserved(c) <==> IsListed(c)
  {
    UpperIsListed(c);
    LowerIsListed(c);
    OtherIsListed(c);
  }

  /** What one byte is encoded as: itself if it is unreserved, else a percent sign and two digits. */
  lemma QuoteOneByte(b: Byte, rest: seq<Byte>)
    ensures
      if b < 0x80 && IsListed(b as char) then Quote([b] + rest) == [b as char] + Quote(rest)
      else Quote([b] + rest) == ['%', DIGITS[b / 16], DIGITS[b % 16]] + Quote(rest)
  {
    assert ([b] + rest)[1..] == rest;
    DigitAt(b / 16);
    DigitAt(b % 16);
    if b < 0x80 { UnreservedIsListed(b as char); }
  }

  lemma UnquotePlain(c: char, rest: string)
    requires c != '%' && c as int < 0x80
    ensures Unquote([c] + rest) == Prepended(c as int, Unquote(rest))
  {
    assert ([c] + rest)[1..] == rest;
  }

  lemma UnquoteEncoded(p: char, q: char, x: nat, y: nat, rest: string)
    requires PositionIn(DIGITS, p) == Some(x) && PositionIn(DIGITS, q) == Some(y)
    ensures Unquote(['%', p, q] + rest) == Prepended(16 * x + y, Unquote(rest))
  {
    assert (['%', p, q] + rest)[3..] == rest;
  }

  lemma UnquoteReserved(b: Byte, rest: seq<Byte>)
    requires !(b < 0x80 && IsUnreserved(b as char))
    ensures Unquote(Quote([b] + rest)) == Prepended(b, Unquote(Quote(rest)))
  {
    DigitIsRead(b / 16);
    DigitIsRead(b % 16);
    UnquoteEncoded(HexDigit(b / 16), HexDigit(b % 16), b / 16, b % 16, Quote(rest));
    assert ([b] + rest)[1..] == rest;
  }

  lemma UnquoteUnreserved(b: Byte, rest: seq<Byte>)
    requires b < 0x80 && IsUnreserved(b as char)
    ensures Unquote(Quote([b] + rest)) == Prepended(b, Unquote(Quote(rest)))
  {
    assert ([b] + rest)[1..] == rest;
    UnquotePlain(b as char, Quote(rest));
  }

  /** The bytes of an argument can be read back from the path. */
  lemma {:induction false} UnquoteQuote(bytes: seq<Byte>)
    ensures Unquote(Quote(bytes)) == Some(bytes)
  {
    if bytes != [] {
      FrontAndRest(bytes, []);
      UnquoteQuote(bytes[1..]);
      if bytes[0] < 0x80 && IsUnreserved(bytes[0] as char) {
        UnquoteUnreserved(bytes[0], bytes[1..]);
      } else {
        UnquoteReserved(bytes[0], bytes[1..]);
      }
    }
  }

  /** Different arguments give different text. */
  lemma QuoteIsInjective(a: seq<Byte>, b: seq<Byte>)
    requires Quote(a) == Quote(b)
    ensures a == b
  {
    UnquoteQuote(a);
    UnquoteQuote(b);
  }
}
