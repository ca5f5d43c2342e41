/** Decimal numbers and separators in byte strings, as keys, members and log entries use them. */
module Text {
  import opened Wrappers

  const UNIT_SEPARATOR: char := 31 as char

  predicate IsDigit(c: char) { '0' <= c <= '9' }

  function Digit(n: nat): (c: char)
    requires n < 10
    ensures IsDigit(c)
  {
    ('0' as int + n) as char
  }

  /** Decimal notation, without leading zeros. */
  function Digits(n: nat): (s: string)
    ensures s != [] && forall c <- s :: IsDigit(c)
  {
    if n < 10 then [Digit(n)] else Digits(n / 10) + [Digit(n % 10)]
  }

  /** Digits only, at least one; leading zeros are accepted. */
  function ParseDigits(s: string): Option<nat> {
    if s == [] || !IsDigit(s[|s| - 1]) then None
    else
      var last := s[|s| - 1] as int - '0' as int;
      if |s| == 1 then Some(last)
      else match ParseDigits(s[..|s| - 1]) { case None => None case Some(v) => Some(10 * v + last) }
  }

  lemma {:induction false} DigitsRoundTrip(n: nat)
    ensures ParseDigits(Digits(n)) == Some(n)
  {
    if n >= 10 {
      DigitsRoundTrip(n / 10);
      var s := Digits(n);
      assert s[..|s| - 1] == Digits(n / 10) && s[|s| - 1] == Digit(n % 10);
    }
  }

  /** A number that is not negative, with or without a sign. */
  function ParseSigned(s: string): Option<nat> {
    if s != [] && s[0] == '+' then ParseDigits(s[1..])
    else if s != [] && s[0] == '-' then (if ParseDigits(s[1..]) == Some(0) then Some(0) else None)
    else ParseDigits(s)
  }

  lemma SignedRoundTrip(n: nat)
    ensures ParseSigned(Digits(n)) == Some(n)
  {
    DigitsRoundTrip(n);
    assert Digits(n)[0] in Digits(n);
  }

  /** Position of the first `c`. */
  function IndexOf(s: string, c: char): (r: Option<nat>)
    ensures r.None? <==> c !in s
    ensures r.Some? ==> r.value < |s| && s[r.value] == c && c !in s[..r.value]
  {
    if s == [] then None
    else if s[0] == c then Some(0)
    else match IndexOf(s[1..], c)
      case None => None
      case Some(i) => assert s[..i + 1] == [s[0]] + s[1..][..i]; Some(i + 1)
  }

  /** Position of the last `c`. */
  function LastIndexOf(s: string, c: char): (r: Option<nat>)
    ensures r.None? <==> c !in s
    ensures r.Some? ==> r.value < |s| && s[r.value] == c && c !in s[r.value + 1..]
  {
    if s == [] then None
    else if s[|s| - 1] == c then Some(|s| - 1)
    else match LastIndexOf(s[..|s| - 1], c)
      case None => None
      case Some(i) => assert s[i + 1..] == s[..|s| - 1][i + 1..] + [s[|s| - 1]]; Some(i)
  }

  lemma {:induction false} FirstAt(a: string, c: char, b: string)
    requires c !in a
    ensures IndexOf(a + [c] + b, c) == Some(|a|)
    ensures (a + [c] + b)[..|a|] == a && (a + [c] + b)[|a| + 1..] == b
  {
    var s := a + [c] + b;
    if a != [] {
      FirstAt(a[1..], c, b);
      assert s[1..] == a[1..] + [c] + b;
    }
  }

  lemma {:induction false} LastAt(a: string, c: char, b: string)
    requires c !in b
    ensures LastIndexOf(a + [c] + b, c) == Some(|a|)
    ensures (a + [c] + b)[..|a|] == a && (a + [c] + b)[|a| + 1..] == b
  {
    var s := a + [c] + b;
    if b == [] {
      assert s[|s| - 1] == c;
    } else {
      LastAt(a, c, b[..|b| - 1]);
      assert s[..|s| - 1] == a + [c] + b[..|b| - 1];
      assert s[|s| - 1] == b[|b| - 1];
    }
  }

  /** At most `n` parts: the last one keeps any separators that are left. */
  function SplitN(s: string, c: char, n: nat): (parts: seq<string>)
    requires n > 0
    ensures 0 < |parts| <= n
  {
    if n == 1 || c !in s then [s]
    else var i := IndexOf(s, c).value; [s[..i]] + SplitN(s[i + 1..], c, n - 1)
  }

  lemma SplitStep(a: string, c: char, b: string, n: nat)
    requires n > 1 && c !in a
    ensures SplitN(a + [c] + b, c, n) == [a] + SplitN(b, c, n - 1)
  {
    FirstAt(a, c, b);
    assert (a + [c] + b)[|a|] == c;
  }

  // ----- query escaping ---------------------------------------------------------------------

  /** A string of bytes. */
  predicate Bytes(s: string) { forall i :: 0 <= i < |s| ==> s[i] as int < 256 }

  predicate Unreserved(c: char) {
    'A' <= c <= 'Z' || 'a' <= c <= 'z' || IsDigit(c) || c == '-' || c == '_' || c == '.' || c == '~'
  }

  function HexDigit(n: nat): char
    requires n < 16
  {
    if n < 10 then Digit(n) else ('A' as int + n - 10) as char
  }

  function HexValue(c: char): Option<nat> {
    if IsDigit(c) then Some(c as int - '0' as int)
    else if 'A' <= c <= 'F' then Some(c as int - 'A' as int + 10)
    else if 'a' <= c <= 'f' then Some(c as int - 'a' as int + 10)
    else None
  }

  lemma HexRoundTrip(n: nat)
    requires n < 16
    ensures HexValue(HexDigit(n)) == Some(n) && Unreserved(HexDigit(n))
  {
  }

  function EscapeByte(c: char): string
    requires c as int < 256
  {
    if Unreserved(c) then [c] else if c == ' ' then "+" else ['%', HexDigit(c as int / 16), HexDigit(c as int % 16)]
  }

  function QueryEscape(s: string): string
    requires Bytes(s)
  {
    if s == [] then [] else EscapeByte(s[0]) + QueryEscape(s[1..])
  }

  function QueryUnescape(s: string): Option<string> {
    if s == [] then Some([])
    else if s[0] == '%' then
      if |s| < 3 || HexValue(s[1]).None? || HexValue(s[2]).None? then None
      else match QueryUnescape(s[3..]) {
        case None => None
        case Some(rest) => Some([(16 * HexValue(s[1]).value + HexValue(s[2]).value) as char] + rest)
      }
    else match QueryUnescape(s[1..]) {
      case None => None
      case Some(rest) => Some([if s[0] == '+' then ' ' else s[0]] + rest)
    }
  }

  /** Escaping is undone exactly, and leaves none but unreserved bytes, plus and percent signs. */
  lemma {:induction false} EscapeRoundTrip(s: string)
    requires Bytes(s)
    ensures QueryUnescape(QueryEscape(s)) == Some(s)
    ensures forall c <- QueryEscape(s) :: Unreserved(c) || c == '+' || c == '%'
    ensures QueryEscape(s) == "" <==> s == ""
  {
    if s != [] {
      EscapeRoundTrip(s[1..]);
      assert s == [s[0]] + s[1..];
      var e, rest := EscapeByte(s[0]), QueryEscape(s[1..]);
      var n := s[0] as int;
      HexRoundTrip(n / 16);
      HexRoundTrip(n % 16);
      if Unreserved(s[0]) || s[0] == ' ' {
        assert (e + rest)[1..] == rest;
      } else {
        assert (e + rest)[3..] == rest;
        assert QueryUnescape(e + rest) == Some([s[0]] + s[1..]);
      }
    }
  }
}
