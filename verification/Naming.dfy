/** Metric names (scaler/naming.go): every character outside -.0-9A-Za-z is replaced by an
    underscore and the upper-case hexadecimal bytes of its UTF-8 encoding, padded to four digits.
    Strings are byte strings, as in Go; a byte that does not belong to a valid encoding counts as
    a character of its own. */
module Naming {
  import opened Keys
  import opened TableMemory

  predicate Safe(b: Byte) {
    b == '-' || b == '.' || '0' <= b <= '9' || 'A' <= b <= 'Z' || 'a' <= b <= 'z'
  }

  predicate Continuation(b: Byte) {
    0x80 <= b as int <= 0xBF
  }

  /** How many bytes the first character of s takes, by the rules of Go's UTF-8 decoder; 1 for
      anything invalid. */
  function RuneWidth(s: Bytes): (w: nat)
    requires s != []
    ensures 1 <= w <= 4 && w <= |s|
    ensures w == 2 ==> 0xC2 <= s[0] as int <= 0xDF
    ensures w == 3 ==> 0xE0 <= s[0] as int <= 0xEF
    ensures w == 4 ==> 0xF0 <= s[0] as int <= 0xF4
  {
    var b := s[0] as int;
    if 0xC2 <= b <= 0xDF && |s| >= 2 && Continuation(s[1]) then 2
    else if 0xE0 <= b <= 0xEF && |s| >= 3 && SecondOk(s[0], s[1]) && Continuation(s[2]) then 3
    else if 0xF0 <= b <= 0xF4 && |s| >= 4 && SecondOk(s[0], s[1]) && Continuation(s[2]) && Continuation(s[3]) then 4
    else 1
  }

  /** Overlong forms, surrogates and code points beyond U+10FFFF are invalid. */
  predicate SecondOk(first: Byte, second: Byte) {
    && Continuation(second)
    && (first as int == 0xE0 ==> second as int >= 0xA0) && (first as int == 0xED ==> second as int <= 0x9F)
    && (first as int == 0xF0 ==> second as int >= 0x90) && (first as int == 0xF4 ==> second as int <= 0x8F)
  }

  function HexDigit(n: int): (c: Byte)
    requires 0 <= n < 16
    ensures Safe(c)
  {
    if n < 10 then '0' + n as char else 'A' + (n - 10) as char
  }

  function Hex(s: Bytes): (h: Bytes)
    ensures |h| == 2 * |s| && forall c | c in h :: Safe(c)
  {
    if s == [] then [] else [HexDigit(s[0] as int / 16), HexDigit(s[0] as int % 16)] + Hex(s[1..])
  }

  /** An underscore and the hexadecimal bytes, zero-padded on the left to four digits. */
  function EscapeRune(r: Bytes): Bytes {
    var h := Hex(r);
    ['_'] + (if |h| < 4 then seq(4 - |h|, _ => '0') + h else h)
  }

  /** The replacement of every unsafe character. */
  function EscapeString(s: Bytes): Bytes
    decreases |s|
  {
    if s == [] then []
    else if Safe(s[0]) then [s[0]] + EscapeString(s[1..])
    else EscapeRune(s[..RuneWidth(s)]) + EscapeString(s[RuneWidth(s)..])
  }

  const PREFIX: Bytes := "http-"

  /** The prefix and the name, escaped. */
  function MetricName(n: NamespacedName): Bytes {
    EscapeString(PREFIX + IndexKey(n))
  }

  // ---- Decoding

  function HexValue(c: Byte): (n: int)
    ensures 0 <= n < 16
  {
    if '0' <= c <= '9' then c as int - '0' as int else if 'A' <= c <= 'F' then c as int - 'A' as int + 10 else 0
  }

  function Unhex(h: Bytes): Bytes {
    if |h| < 2 then [] else [(HexValue(h[0]) * 16 + HexValue(h[1])) as char] + Unhex(h[2..])
  }

  /** How many hexadecimal digits an escape has, by its first one. */
  function EscapeLength(first: Byte): nat {
    if first == 'E' then 6 else if first == 'F' then 8 else 4
  }

  /** Reads a metric name back: the first digit after an underscore tells how long the escape is,
      and whether it is padding. */
  function Unescape(m: Bytes): Bytes
    decreases |m|
  {
    if m == [] then []
    else if m[0] != '_' then [m[0]] + Unescape(m[1..])
    else if |m| < 2 || |m| < 1 + EscapeLength(m[1]) then []
    else
      var k := EscapeLength(m[1]);
      (if m[1] == '0' then Unhex(m[3..5]) else Unhex(m[1..k + 1])) + Unescape(m[k + 1..])
  }

  lemma HexByte(b: Byte)
    ensures HexValue(HexDigit(b as int / 16)) * 16 + HexValue(HexDigit(b as int % 16)) == b as int
  {
  }

  lemma {:induction false} UnhexHex(s: Bytes)
    ensures Unhex(Hex(s)) == s
  {
    if s != [] {
      HexByte(s[0]);
      UnhexHex(s[1..]);
      assert Hex(s)[2..] == Hex(s[1..]);
    }
  }

  /** A one-byte character: padding, then its two digits. */
  lemma {:induction false} UnescapeShort(b: Byte, rest: Bytes)
    ensures Unescape(EscapeRune([b]) + rest) == [b] + Unescape(rest)
  {
    var h := Hex([b]);
    var m := EscapeRune([b]) + rest;
    assert [b][1..] == [];
    assert m == ['_', '0', '0', h[0], h[1]] + rest;
    assert m[3..5] == h && m[5..] == rest;
    UnhexHex([b]);
  }

  /** A longer character: its first digit is C or D, E or F according to its length. */
  lemma {:induction false} UnescapeLong(r: Bytes, rest: Bytes)
    requires 2 <= |r| <= 4
    requires |r| == 2 ==> 0xC0 <= r[0] as int <= 0xDF
    requires |r| == 3 ==> 0xE0 <= r[0] as int <= 0xEF
    requires |r| == 4 ==> 0xF0 <= r[0] as int
    ensures Unescape(EscapeRune(r) + rest) == r + Unescape(rest)
  {
    var h := Hex(r);
    var m := EscapeRune(r) + rest;
    assert h[0] == HexDigit(r[0] as int / 16);
    assert m[1] == h[0] && EscapeLength(m[1]) == |h|;
    assert m[1..|h| + 1] == h && m[|h| + 1..] == rest;
    UnhexHex(r);
  }

  lemma {:induction false} UnescapeSafe(b: Byte, rest: Bytes)
    requires Safe(b)
    ensures Unescape([b] + rest) == [b] + Unescape(rest)
  {
    assert ([b] + rest)[1..] == rest;
  }

  /** The first character of s, if it is unsafe. */
  lemma {:induction false} UnescapeUnsafe(s: Bytes, rest: Bytes)
    requires s != []
    ensures Unescape(EscapeRune(s[..RuneWidth(s)]) + rest) == s[..RuneWidth(s)] + Unescape(rest)
  {
    if RuneWidth(s) == 1 {
      assert s[..1] == [s[0]];
      UnescapeShort(s[0], rest);
    } else {
      UnescapeLong(s[..RuneWidth(s)], rest);
    }
  }

  /** The step of the round trip over an unsafe first character. */
  lemma {:induction false} UnsafeStep(s: Bytes, w: nat, tail: Bytes)
    requires s != [] && !Safe(s[0]) && w == RuneWidth(s) && Unescape(tail) == s[w..]
    ensures Unescape(EscapeRune(s[..w]) + tail) == s
  {
    UnescapeUnsafe(s, tail);
    Rejoin(s, w, EscapeRune(s[..w]), tail);
  }

  lemma {:induction false} Rejoin(s: Bytes, w: nat, e: Bytes, tail: Bytes)
    requires w <= |s| && Unescape(e + tail) == s[..w] + Unescape(tail) && Unescape(tail) == s[w..]
    ensures Unescape(e + tail) == s
  {
    assert s == s[..w] + s[w..];
  }

  /** Unescape inverts EscapeString on every string. */
  lemma {:induction false} UnescapeEscape(s: Bytes)
    ensures Unescape(EscapeString(s)) == s
    decreases |s|
  {
    if s != [] {
      if Safe(s[0]) {
        UnescapeEscape(s[1..]);
        UnescapeSafe(s[0], EscapeString(s[1..]));
      } else {
        UnescapeEscape(s[RuneWidth(s)..]);
        UnsafeStep(s, RuneWidth(s), EscapeString(s[RuneWidth(s)..]));
      }
    }
  }

  lemma EscapeInjective(x: Bytes, y: Bytes)
    ensures EscapeString(x) == EscapeString(y) <==> x == y
  {
    UnescapeEscape(x);
    UnescapeEscape(y);
  }

  /** The output has only safe characters and underscores. */
  lemma {:induction false} EscapeIsSafe(s: Bytes)
    ensures forall c | c in EscapeString(s) :: Safe(c) || c == '_'
    decreases |s|
  {
    if s != [] {
      EscapeIsSafe(if Safe(s[0]) then s[1..] else s[RuneWidth(s)..]);
    }
  }

  /** Different objects never share a metric name, and names are safe. */
  lemma MetricNamesDiffer(a: NamespacedName, b: NamespacedName)
    ensures MetricName(a) == MetricName(b) <==> a == b
    ensures forall c | c in MetricName(a) :: Safe(c) || c == '_'
  {
    var x, y := IndexKey(a), IndexKey(b);
    EscapeIsSafe(PREFIX + x);
    EscapeInjective(PREFIX + x, PREFIX + y);
    assert (PREFIX + x)[5..] == x && (PREFIX + y)[5..] == y;
    IndexKeyInjective(a, b);
  }
}
