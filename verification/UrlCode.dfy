/** Percent-encoding of form values (UrlEncode and UrlDecode in AuxTools; percent-encoding is
    section 2.1 of RFC 3986, '+' for a space is section 8.2.1 of RFC 1866). */
module UrlCode {

  /** A C++ string: every character is one byte. */
  ghost predicate Bytes(s: string) {
    forall i :: 0 <= i < |s| ==> s[i] as int < 256
  }

  predicate Digit(c: char) { '0' <= c <= '9' }

  predicate Alnum(c: char) { Digit(c) || 'A' <= c <= 'Z' || 'a' <= c <= 'z' }

  predicate HexDigit(c: char) { Digit(c) || 'A' <= c <= 'F' || 'a' <= c <= 'f' }

  predicate Plain(c: char) { Alnum(c) || c == '-' || c == '_' || c == '.' || c == '~' }

  function ToHex(x: nat): char
    requires x < 16
  {
    (if x > 9 then x + 55 else x + 48) as char
  }

  function FromHex(c: char): (y: nat)
    ensures y < 36
  {
    if 'A' <= c <= 'Z' then (c as int - 'A' as int) + 10
    else if 'a' <= c <= 'z' then (c as int - 'a' as int) + 10
    else if '0' <= c <= '9' then c as int - '0' as int
    else 0
  }

  function EncodeChar(c: char): string
    requires c as int < 256
  {
    if Plain(c) then [c]
    else if c == ' ' then "+"
    else ['%', ToHex(c as int / 16), ToHex(c as int % 16)]
  }

  function Encode(s: string): string
    requires Bytes(s)
  {
    if s == [] then [] else EncodeChar(s[0]) + Encode(s[1..])
  }

  lemma EncodeAt(str: string, i: nat, r: string)
    requires Bytes(str) && i < |str|
    ensures r + Encode(str[i..]) == (r + EncodeChar(str[i])) + Encode(str[i + 1..])
  {
  }

  method UrlEncode(str: string) returns (r: string)
    requires Bytes(str)
    ensures r == Encode(str)
  {
    ghost var goal := Encode(str);
    r := "";
    assert str[0..] == str;
    for i := 0 to |str|
      invariant r + Encode(str[i..]) == goal
    {
      EncodeAt(str, i, r);
      var c := str[i];
      var piece;
      if Plain(c) {
        piece := [c];
      } else if c == ' ' {
        piece := "+";
      } else {
        piece := ['%', ToHex(c as int / 16), ToHex(c as int % 16)];
      }
      assert piece == EncodeChar(c);
      r := r + piece;
    }
    assert r + [] == r;
  }

  /** What UrlDecode yields: the first byte, and how much of the input it came from. */
  function DecodeStep(s: string): (r: (char, nat))
    requires s != []
    ensures 1 <= r.1 <= |s|
  {
    if s[0] == '+' then (' ', 1)
    else if s[0] == '%' && 2 < |s| && HexDigit(s[1]) && HexDigit(s[2]) then
      HexRange(s[1]);
      HexRange(s[2]);
      ((FromHex(s[1]) * 16 + FromHex(s[2])) as char, 3)
    else (s[0], 1)
  }

  lemma HexRange(c: char)
    requires HexDigit(c)
    ensures FromHex(c) < 16
  {
  }

  function Decode(s: string): string
    decreases |s|
  {
    if s == [] then []
    else
      var (c, n) := DecodeStep(s);
      [c] + Decode(s[n..])
  }

  /** One turn of UrlDecode's loop: the byte at position i and where the next one starts. */
  method DecodeOne(str: string, i: nat) returns (c: char, next: nat)
    requires i < |str|
    ensures i < next <= |str|
    ensures DecodeStep(str[i..]) == (c, next - i)
  {
    if str[i] == '+' {
      c, next := ' ', i + 1;
    } else if str[i] == '%' && i + 2 < |str| && HexDigit(str[i + 1]) && HexDigit(str[i + 2]) {
      HexRange(str[i + 1]);
      HexRange(str[i + 2]);
      var high, low := FromHex(str[i + 1]), FromHex(str[i + 2]);
      c, next := (high * 16 + low) as char, i + 3;
    } else {
      c, next := str[i], i + 1;
    }
  }

  lemma DecodeAt(str: string, i: nat, n: nat, c: char, r: string)
    requires i < |str| && DecodeStep(str[i..]) == (c, n)
    ensures r + Decode(str[i..]) == (r + [c]) + Decode(str[i + n..])
  {
  }

  method UrlDecode(str: string) returns (r: string)
    ensures r == Decode(str)
  {
    ghost var goal := Decode(str);
    r := "";
    var i := 0;
    assert str[0..] == str;
    while i < |str|
      invariant 0 <= i <= |str|
      invariant r + Decode(str[i..]) == goal
    {
      var c, next := DecodeOne(str, i);
      DecodeAt(str, i, next - i, c, r);
      r, i := r + [c], next;
    }
    assert r + [] == r;
  }

  lemma HexBack(x: nat)
    requires x < 16
    ensures HexDigit(ToHex(x)) && FromHex(ToHex(x)) == x
  {
  }

  /** Decoding begins by undoing the encoding of one byte, whatever follows it. */
  lemma DecodeChar(c: char, rest: string)
    requires c as int < 256
    ensures Decode(EncodeChar(c) + rest) == [c] + Decode(rest)
  {
  }

  /** Decoding undoes encoding, for every byte string. */
  lemma {:induction false} DecodeEncode(s: string)
    requires Bytes(s)
    ensures Decode(Encode(s)) == s
  {
    if s != [] {
      DecodeEncode(s[1..]);
      DecodeChar(s[0], Encode(s[1..]));
      assert s == [s[0]] + s[1..];
    }
  }

  /** The only characters an encoded value is made of. */
  predicate Coded(c: char) { Plain(c) || c == '+' || c == '%' }

  lemma {:induction false} EncodeCoded(s: string)
    requires Bytes(s)
    ensures forall i :: 0 <= i < |Encode(s)| ==> Coded(Encode(s)[i])
  {
    if s != [] {
      EncodeCoded(s[1..]);
      var x := s[0] as int;
      HexBack(x / 16);
      HexBack(x % 16);
    }
  }

  const DIGITS := "0123456789ABCDEF"
  const LOWER_DIGITS := "0123456789abcdef"

  lemma DigitValue(c: char, i: nat)
    requires i < 16 && (c == DIGITS[i] || c == LOWER_DIGITS[i])
    ensures HexDigit(c) && FromHex(c) == i
  {
  }

  lemma DigitKnown(c: char)
    ensures HexDigit(c) <==> c in DIGITS || c in LOWER_DIGITS
  {
    if Digit(c) {
      assert c == DIGITS[c as int - '0' as int];
    } else if 'A' <= c <= 'F' {
      assert c == DIGITS[10 + c as int - 'A' as int];
    } else if 'a' <= c <= 'f' {
      assert c == LOWER_DIGITS[10 + c as int - 'a' as int];
    }
  }

  /** A '%' with two hexadecimal digits of either case stands for the byte they count. */
  lemma EscapeRead(high: nat, low: nat, a: char, b: char, rest: string)
    requires high < 16 && low < 16
    requires a == DIGITS[high] || a == LOWER_DIGITS[high]
    requires b == DIGITS[low] || b == LOWER_DIGITS[low]
    ensures Decode(['%', a, b] + rest) == [(16 * high + low) as char] + Decode(rest)
  {
    DigitValue(a, high);
    DigitValue(b, low);
    var s := ['%', a, b] + rest;
    assert s[3..] == rest;
  }

  /** A '+' stands for a blank; any other character that begins no whole escape stands for itself. */
  lemma OtherRead(c: char, rest: string)
    requires c == '%' ==>
      |rest| < 2 || rest[0] !in DIGITS + LOWER_DIGITS || rest[1] !in DIGITS + LOWER_DIGITS
    ensures Decode([c] + rest) == [if c == '+' then ' ' else c] + Decode(rest)
  {
    if |rest| >= 2 {
      DigitKnown(rest[0]);
      DigitKnown(rest[1]);
    }
    var s := [c] + rest;
    assert s[1..] == rest;
    assert |rest| >= 2 ==> s[1] == rest[0] && s[2] == rest[1];
  }

  /** A letter, a digit and '-', '_', '.', '~' are printed as they are, a blank as '+', and any other byte
      as '%' and its two digits. */
  lemma EncodeMeans(c: char, rest: string)
    requires c as int < 256 && Bytes(rest)
    ensures Bytes([c] + rest)
    ensures Encode([c] + rest) ==
            (if 'A' <= c <= 'Z' || 'a' <= c <= 'z' || '0' <= c <= '9' || c in {'-', '_', '.', '~'} then [c]
             else if c == ' ' then "+"
             else ['%', DIGITS[c as int / 16], DIGITS[c as int % 16]]) + Encode(rest)
  {
    var s := [c] + rest;
    assert s[1..] == rest;
    HexPrinted(c as int / 16);
    HexPrinted(c as int % 16);
  }

  lemma HexPrinted(x: nat)
    requires x < 16
    ensures ToHex(x) == DIGITS[x]
  {
  }
}
