/** Metric names spelled out (scaler/naming.go): which characters are kept, how the others are written, where
    a character ends, and what a whole name looks like. */
module NamingLaws {
  import opened Keys
  import opened TableMemory
  import opened Naming

  // ---- Characters that are kept

  /** What the pattern of unsafe characters leaves out. */
  predicate Plain(c: Byte) {
    c == '-' || c == '.' || '0' <= c <= '9' || 'A' <= c <= 'Z' || 'a' <= c <= 'z'
  }

  /** Escaping never shortens. */
  lemma {:induction false} EscapeGrows(s: Bytes)
    ensures |EscapeString(s)| >= |s|
    decreases |s|
  {
    if s != [] {
      EscapeGrows(if Safe(s[0]) then s[1..] else s[RuneWidth(s)..]);
    }
  }

  /** A string is left as it is exactly when it is made of plain characters. */
  lemma {:induction false} PlainIsKept(s: Bytes)
    ensures EscapeString(s) == s <==> forall c | c in s :: Plain(c)
    decreases |s|
  {
    if s != [] {
      assert s[0] in s && s == [s[0]] + s[1..];
      if Plain(s[0]) {
        PlainIsKept(s[1..]);
        assert EscapeString(s)[1..] == EscapeString(s[1..]);
      } else {
        EscapeGrows(s[RuneWidth(s)..]);
        assert |EscapeString(s)| > |s|;
      }
    }
  }

  // ---- How a character is escaped

  const DIGITS: Bytes := "0123456789ABCDEF"

  lemma DigitSpelled(n: int)
    requires 0 <= n < 16
    ensures HexDigit(n) == DIGITS[n]
  {
    assert HexDigit(10) == 'A' && HexDigit(11) == 'B' && HexDigit(12) == 'C';
    assert HexDigit(13) == 'D' && HexDigit(14) == 'E' && HexDigit(15) == 'F';
    if n < 10 {
      assert DIGITS[..10] == "0123456789";
      assert HexDigit(n) as int == 0x30 + n;
    }
  }

  lemma {:induction false} HexAt(r: Bytes, i: nat)
    requires i < |r|
    ensures Hex(r)[2 * i] == DIGITS[r[i] as int / 16] && Hex(r)[2 * i + 1] == DIGITS[r[i] as int % 16]
  {
    if i == 0 {
      DigitSpelled(r[0] as int / 16);
      DigitSpelled(r[0] as int % 16);
    } else {
      HexAt(r[1..], i - 1);
    }
  }

  /** An underscore, then two hexadecimal digits for each byte, after two zeros if there is only one. */
  lemma EscapeSpelled(r: Bytes, i: nat)
    requires r != [] && i < |r|
    ensures var e := EscapeRune(r);
            && |e| == (if |r| == 1 then 5 else 1 + 2 * |r|) && e[0] == '_'
            && (|r| == 1 ==> e[1] == '0' && e[2] == '0')
            && e[|e| - 2 * |r| + 2 * i] == DIGITS[r[i] as int / 16]
            && e[|e| - 2 * |r| + 2 * i + 1] == DIGITS[r[i] as int % 16]
  {
    HexAt(r, i);
  }

  // ---- Where a character ends

  /** The Unicode scalar values. */
  predicate Scalar(c: int) {
    0 <= c < 0xD800 || 0xE000 <= c <= 0x10FFFF
  }

  function ByteOf(n: int): Byte
    requires 0 <= n < 256
  {
    n as char
  }

  /** The UTF-8 encoding, section 3 of RFC 3629. */
  function Utf8(c: int): Bytes
    requires Scalar(c)
  {
    if c < 0x80 then [ByteOf(c)]
    else if c < 0x800 then [ByteOf(0xC0 + c / 64), ByteOf(0x80 + c % 64)]
    else if c < 0x10000 then [ByteOf(0xE0 + c / 4096), ByteOf(0x80 + c / 64 % 64), ByteOf(0x80 + c % 64)]
    else [ByteOf(0xF0 + c / 262144), ByteOf(0x80 + c / 4096 % 64), ByteOf(0x80 + c / 64 % 64), ByteOf(0x80 + c % 64)]
  }

  lemma ThreeByteRange(c: int)
    requires 0x800 <= c < 0x10000 && Scalar(c)
    ensures var x, y := 0xE0 + c / 4096, 0x80 + c / 64 % 64;
            0xE0 <= x <= 0xEF && (x == 0xE0 ==> y >= 0xA0) && (x == 0xED ==> y <= 0x9F)
  {
    var m := c / 64;
    assert c / 4096 == m / 64 && (c < 0xD800 ==> m < 0x360) && (c >= 0xE000 ==> m >= 0x380);
  }

  lemma FourByteRange(c: int)
    requires 0x10000 <= c <= 0x10FFFF
    ensures var x, y := 0xF0 + c / 262144, 0x80 + c / 4096 % 64;
            0xF0 <= x <= 0xF4 && (x == 0xF0 ==> y >= 0x90) && (x == 0xF4 ==> y <= 0x8F)
  {
    var m := c / 4096;
    assert c / 262144 == m / 64 && 0x10 <= m <= 0x10F;
  }

  /** An encoded character is taken as a whole, whatever follows. */
  lemma WidthOfRune(c: int, rest: Bytes)
    requires Scalar(c)
    ensures RuneWidth(Utf8(c) + rest) == |Utf8(c)|
  {
    var r, s := Utf8(c), Utf8(c) + rest;
    assert forall i | 0 <= i < |r| :: s[i] == r[i];
    if 0x800 <= c < 0x10000 {
      ThreeByteRange(c);
      assert s[0] == r[0] && s[1] == r[1] && s[2] == r[2];
    } else if 0x10000 <= c {
      FourByteRange(c);
      assert s[0] == r[0] && s[1] == r[1] && s[2] == r[2] && s[3] == r[3];
    }
  }

  lemma TwoBytes(x: int, y: int) returns (c: int)
    requires 0xC2 <= x <= 0xDF && 0x80 <= y <= 0xBF
    ensures 0x80 <= c < 0x800 && 0xC0 + c / 64 == x && 0x80 + c % 64 == y
  {
    c := (x - 0xC0) * 64 + (y - 0x80);
  }

  lemma ThreeBytes(x: int, y: int, z: int) returns (c: int)
    requires 0xE0 <= x <= 0xEF && 0x80 <= y <= 0xBF && 0x80 <= z <= 0xBF
    requires (x == 0xE0 ==> y >= 0xA0) && (x == 0xED ==> y <= 0x9F)
    ensures 0x800 <= c < 0x10000 && Scalar(c)
    ensures 0xE0 + c / 4096 == x && 0x80 + c / 64 % 64 == y && 0x80 + c % 64 == z
  {
    var m := (x - 0xE0) * 64 + (y - 0x80);
    c := m * 64 + (z - 0x80);
    assert c / 64 == m;
  }

  lemma FourBytes(x: int, y: int, z: int, u: int) returns (c: int)
    requires 0xF0 <= x <= 0xF4 && 0x80 <= y <= 0xBF && 0x80 <= z <= 0xBF && 0x80 <= u <= 0xBF
    requires (x == 0xF0 ==> y >= 0x90) && (x == 0xF4 ==> y <= 0x8F)
    ensures 0x10000 <= c <= 0x10FFFF
    ensures 0xF0 + c / 262144 == x && 0x80 + c / 4096 % 64 == y && 0x80 + c / 64 % 64 == z && 0x80 + c % 64 == u
  {
    var m := (x - 0xF0) * 64 + (y - 0x80);
    var k := m * 64 + (z - 0x80);
    c := k * 64 + (u - 0x80);
    assert c / 64 == k && c / 4096 == m;
  }

  /** What is taken as more than one byte is the encoding of some character. */
  lemma RuneOfWidth(s: Bytes) returns (c: int)
    requires s != [] && RuneWidth(s) > 1
    ensures Scalar(c) && Utf8(c) == s[..RuneWidth(s)]
  {
    var w := RuneWidth(s);
    if w == 2 {
      c := TwoBytes(s[0] as int, s[1] as int);
    } else if w == 3 {
      c := ThreeBytes(s[0] as int, s[1] as int, s[2] as int);
    } else {
      c := FourBytes(s[0] as int, s[1] as int, s[2] as int, s[3] as int);
    }
  }

  // ---- Whole names

  /** A slash ends every character before it. */
  lemma WidthBeforeSlash(a: Bytes, b: Bytes)
    requires a != []
    ensures RuneWidth(a + ['/'] + b) == RuneWidth(a)
  {
    var s := a + ['/'] + b;
    assert s[|a|] == '/' && forall i | 0 <= i < |a| :: s[i] == a[i];
  }

  /** How much of a string is escaped in one go, and what becomes of it. */
  function HeadWidth(s: Bytes): nat
    requires s != []
  {
    if Safe(s[0]) then 1 else RuneWidth(s)
  }

  function HeadEscape(head: Bytes): Bytes
    requires head != []
  {
    if Safe(head[0]) then [head[0]] else EscapeRune(head)
  }

  lemma {:induction false} EscapeStep(s: Bytes)
    requires s != []
    ensures 1 <= HeadWidth(s) <= |s|
    ensures EscapeString(s) == HeadEscape(s[..HeadWidth(s)]) + EscapeString(s[HeadWidth(s)..])
  {
  }

  lemma SameHead(a: Bytes, b: Bytes, w: nat)
    requires a != [] && w <= |a|
    ensures var s := a + ['/'] + b; s[0] == a[0] && s[..w] == a[..w] && s[w..] == a[w..] + ['/'] + b
  {
  }

  lemma {:induction false} EscapeAtSlash(a: Bytes, b: Bytes)
    ensures EscapeString(a + ['/'] + b) == EscapeString(a) + EscapeString(['/'] + b)
    decreases |a|
  {
    if a == [] {
      assert a + ['/'] + b == ['/'] + b;
    } else {
      var s, w := a + ['/'] + b, HeadWidth(a);
      EscapeStep(a);
      SameHead(a, b, w);
      WidthBeforeSlash(a, b);
      EscapeStep(s);
      EscapeAtSlash(a[w..], b);
      Regroup(HeadEscape(a[..w]), EscapeString(a[w..]), EscapeString(['/'] + b));
    }
  }

  lemma Regroup(x: Bytes, y: Bytes, z: Bytes)
    ensures x + (y + z) == x + y + z
  {
  }

  lemma SlashEscapes(b: Bytes)
    ensures EscapeString(['/'] + b) == "_002F" + EscapeString(b)
  {
    var s := ['/'] + b;
    assert RuneWidth(s) == 1 && s[..1] == ['/'] && s[1..] == b;
    EscapeSpelled(['/'], 0);
    assert EscapeRune(['/']) == "_002F";
  }

  lemma {:induction false} PlainPrefixKept(p: Bytes, s: Bytes)
    requires forall c | c in p :: Plain(c)
    ensures EscapeString(p + s) == p + EscapeString(s)
  {
    if p == [] {
      assert p + s == s;
    } else {
      assert p[0] in p && forall c | c in p[1..] :: c in p;
      PlainPrefixKept(p[1..], s);
      assert (p + s)[..1] == [p[0]] && (p + s)[1..] == p[1..] + s;
      EscapeStep(p + s);
      Regroup([p[0]], p[1..], EscapeString(s));
      assert p == [p[0]] + p[1..];
    }
  }

  /** A metric name is http-, the escaped namespace, an escaped slash and the escaped name. */
  lemma MetricNameSpelled(n: NamespacedName)
    ensures MetricName(n) == "http-" + EscapeString(n.namespace) + "_002F" + EscapeString(n.name)
  {
    PlainPrefixKept("http-", n.namespace + ['/'] + n.name);
    EscapeAtSlash(n.namespace, n.name);
    SlashEscapes(n.name);
  }
}
