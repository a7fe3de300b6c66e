/** Text as bytes (RFC 3629). */
module Utf8 {
  import opened Prelude

  type byte = b: int | 0 <= b < 256

  function EncodeChar(c: char): seq<byte> {
    var n := c as int;
    if n < 0x80 then [n]
    else if n < 0x800 then [0xC0 + n / 64, 0x80 + n % 64]
    else if n < 0x10000 then [0xE0 + n / 4096, 0x80 + n / 64 % 64, 0x80 + n % 64]
    else [0xF0 + n / 262144, 0x80 + n / 4096 % 64, 0x80 + n / 64 % 64, 0x80 + n % 64]
  }

  function Encode(s: string): seq<byte> {
    if s == "" then [] else EncodeChar(s[0]) + Encode(s[1..])
  }

  predicate IsTail(b: byte) {
    0x80 <= b < 0xC0
  }

  predicate IsScalar(n: int) {
    0 <= n < 0xD800 || 0xE000 <= n < 0x110000
  }

  /** The number two, three or four bytes stand for. */
  function Two(a: int, b: int): int {
    (a - 0xC0) * 64 + (b - 0x80)
  }

  function Three(a: int, b: int, c: int): int {
    (a - 0xE0) * 4096 + (b - 0x80) * 64 + (c - 0x80)
  }

  function Four(a: int, b: int, c: int, d: int): int {
    (a - 0xF0) * 262144 + (b - 0x80) * 4096 + (c - 0x80) * 64 + (d - 0x80)
  }

  /** The character at the front and how many bytes it takes. */
  function DecodeChar(bytes: seq<byte>): (r: Option<(char, nat)>)
    ensures r.Some? ==> 0 < r.value.1 <= |bytes|
  {
    if |bytes| > 0 && bytes[0] < 0x80 then Some((bytes[0] as char, 1))
    else if |bytes| > 1 && 0xC0 <= bytes[0] < 0xE0 && IsTail(bytes[1]) then Scalar(Two(bytes[0], bytes[1]), 0x80, 2)
    else if |bytes| > 2 && 0xE0 <= bytes[0] < 0xF0 && IsTail(bytes[1]) && IsTail(bytes[2]) then
      Scalar(Three(bytes[0], bytes[1], bytes[2]), 0x800, 3)
    else if |bytes| > 3 && 0xF0 <= bytes[0] < 0xF8 && IsTail(bytes[1]) && IsTail(bytes[2]) && IsTail(bytes[3]) then
      Scalar(Four(bytes[0], bytes[1], bytes[2], bytes[3]), 0x10000, 4)
    else None
  }

  /** Longer forms than needed are not accepted. */
  function Scalar(n: int, least: int, size: nat): (r: Option<(char, nat)>)
    ensures r.Some? ==> r.value.1 == size && r.value.0 as int == n
  {
    if least <= n && IsScalar(n) then Some((n as char, size)) else None
  }

  /** What may stand behind the first of three or four bytes: no longer form than needed, no surrogate, nothing beyond the
      last character. */
  predicate SecondOk(a: byte, b: byte) {
    IsTail(b) && (a == 0xE0 ==> b >= 0xA0) && (a == 0xED ==> b < 0xA0) && (a == 0xF0 ==> b >= 0x90) && (a == 0xF4 ==> b < 0x90)
  }

  /** How many bytes that begin no character are replaced together. */
  function DamagedLength(bytes: seq<byte>): (n: nat)
    requires bytes != []
    ensures 0 < n <= |bytes|
  {
    if |bytes| == 1 || !(0xE0 <= bytes[0] < 0xF5) || !SecondOk(bytes[0], bytes[1]) then 1
    else if bytes[0] >= 0xF0 && |bytes| > 2 && IsTail(bytes[2]) then 3 else 2
  }

  /** Bytes that are no text are replaced. */
  function DecodeLossy(bytes: seq<byte>): string {
    if bytes == [] then ""
    else
      match DecodeChar(bytes)
      case None => ['\U{FFFD}'] + DecodeLossy(bytes[DamagedLength(bytes)..])
      case Some((c, size)) => [c] + DecodeLossy(bytes[size..])
  }

  /** A number is the sum of its digits to base 64. */
  lemma Base64(n: nat)
    ensures Two(0xC0 + n / 64, 0x80 + n % 64) == n
    ensures Three(0xE0 + n / 4096, 0x80 + n / 64 % 64, 0x80 + n % 64) == n
    ensures Four(0xF0 + n / 262144, 0x80 + n / 4096 % 64, 0x80 + n / 64 % 64, 0x80 + n % 64) == n
  {
    var a := n / 64;
    var b := a / 64;
    assert n == a * 64 + n % 64 && a == b * 64 + a % 64 && b == (b / 64) * 64 + b % 64;
    assert n / 4096 == b && n / 262144 == b / 64;
  }

  lemma CharDecodes(c: char, rest: seq<byte>)
    ensures DecodeChar(EncodeChar(c) + rest) == Some((c, |EncodeChar(c)|))
  {
    hide Two, Three, Four;
    var n := c as int;
    assert IsScalar(n);
    Base64(n);
    var bytes := EncodeChar(c) + rest;
    assert forall i :: 0 <= i < |EncodeChar(c)| ==> bytes[i] == EncodeChar(c)[i];
  }

  lemma DigitsOf(n: nat, high: nat, low: nat)
    requires n == high * 64 + low && low < 64
    ensures n / 64 == high && n % 64 == low
  {
  }

  /** Only the bytes of a character are read as one, and no byte of another. */
  lemma CharDecodesExactly(bytes: seq<byte>, c: char)
    ensures (exists size :: DecodeChar(bytes) == Some((c, size))) <==> EncodeChar(c) <= bytes
    ensures DecodeChar(bytes).Some? ==> DecodeChar(bytes).value.1 == |EncodeChar(DecodeChar(bytes).value.0)|
  {
    if EncodeChar(c) <= bytes {
      CharDecodes(c, bytes[|EncodeChar(c)|..]);
      assert EncodeChar(c) + bytes[|EncodeChar(c)|..] == bytes;
    }
    if DecodeChar(bytes).Some? {
      ReadIsWritten(bytes);
    }
  }

  lemma ReadIsWritten(bytes: seq<byte>)
    requires DecodeChar(bytes).Some?
    ensures EncodeChar(DecodeChar(bytes).value.0) == bytes[..DecodeChar(bytes).value.1]
  {
    hide Two, Three, Four;
    var size := DecodeChar(bytes).value.1;
    if size == 2 {
      TwoIs(bytes[0], bytes[1]);
    } else if size == 3 {
      ThreeIs(bytes[0], bytes[1], bytes[2]);
    } else if size == 4 {
      FourIs(bytes[0], bytes[1], bytes[2], bytes[3]);
    }
  }

  lemma TwoIs(a: int, b: int)
    requires 0xC0 <= a && 0x80 <= b < 0xC0
    ensures var n := Two(a, b); a == 0xC0 + n / 64 && b == 0x80 + n % 64
  {
    DigitsOf(Two(a, b), a - 0xC0, b - 0x80);
  }

  lemma ThreeIs(a: int, b: int, c: int)
    requires 0xE0 <= a && 0x80 <= b < 0xC0 && 0x80 <= c < 0xC0
    ensures var n := Three(a, b, c); a == 0xE0 + n / 4096 && b == 0x80 + n / 64 % 64 && c == 0x80 + n % 64
  {
    var n := Three(a, b, c);
    DigitsOf(n, (a - 0xE0) * 64 + (b - 0x80), c - 0x80);
    DigitsOf(n / 64, a - 0xE0, b - 0x80);
    assert n / 4096 == n / 64 / 64;
  }

  lemma FourIs(a: int, b: int, c: int, d: int)
    requires 0xF0 <= a && 0x80 <= b < 0xC0 && 0x80 <= c < 0xC0 && 0x80 <= d < 0xC0
    ensures var n := Four(a, b, c, d);
            a == 0xF0 + n / 262144 && b == 0x80 + n / 4096 % 64 && c == 0x80 + n / 64 % 64 && d == 0x80 + n % 64
  {
    var n := Four(a, b, c, d);
    var m := (a - 0xF0) * 4096 + (b - 0x80) * 64 + (c - 0x80);
    DigitsOf(n, m, d - 0x80);
    DigitsOf(m, (a - 0xF0) * 64 + (b - 0x80), c - 0x80);
    DigitsOf(m / 64, a - 0xF0, b - 0x80);
    assert n / 4096 == n / 64 / 64 && n / 262144 == n / 64 / 64 / 64;
  }

  // ----- Damage -------------------------------------------------------------------------------------

  /** The bytes begin some character, or are one. */
  ghost predicate Begins(bytes: seq<byte>) {
    exists c :: bytes <= EncodeChar(c)
  }

  lemma LongForms(c: char)
    ensures var e := EncodeChar(c);
            && (|e| > 1 ==> 0xC0 <= e[0] < 0xF5 && IsTail(e[1]))
            && (|e| > 2 ==> 0xE0 <= e[0] && SecondOk(e[0], e[1]) && IsTail(e[2]))
            && (|e| > 3 <==> e[0] >= 0xF0) && |e| <= 4
  {
    var n := c as int;
    assert 0 <= n < 0xD800 || 0xE000 <= n < 0x110000;
    if 0x800 <= n < 0x10000 {
      SecondOfThree(n);
    } else if n >= 0x10000 {
      SecondOfFour(n);
    }
  }

  lemma SecondOfThree(n: int)
    requires 0x800 <= n < 0xD800 || 0xE000 <= n < 0x10000
    ensures n / 4096 == 0 ==> n / 64 % 64 >= 32
    ensures n / 4096 == 13 ==> n / 64 % 64 < 32
    ensures n / 4096 < 16
  {
    var m := n / 64;
    assert m / 64 == n / 4096 && m == m / 64 * 64 + m % 64;
    assert 32 <= m < 864 || 896 <= m < 1024;
  }

  lemma SecondOfFour(n: int)
    requires 0x10000 <= n < 0x110000
    ensures n / 262144 == 0 ==> n / 4096 % 64 >= 16
    ensures n / 262144 == 4 ==> n / 4096 % 64 < 16
    ensures n / 262144 < 5
  {
    var m := n / 4096;
    assert m / 64 == n / 262144 && m == m / 64 * 64 + m % 64;
    assert 16 <= m < 272;
  }

  lemma DamageReaches(bytes: seq<byte>, k: nat, c: char)
    requires DecodeChar(bytes).None? && 0 < k <= |bytes| && bytes[..k] <= EncodeChar(c)
    ensures k <= DamagedLength(bytes)
  {
    var e := EncodeChar(c);
    LongForms(c);
    CharDecodesExactly(bytes, c);
    assert k == |e| ==> e <= bytes;
    assert forall i :: 0 <= i < k ==> bytes[i] == bytes[..k][i] == e[i];
  }

  /** What is replaced together is the longest part that begins a character, or a single byte. */
  lemma DamagedExactly(bytes: seq<byte>)
    requires bytes != [] && DecodeChar(bytes).None?
    ensures var n := DamagedLength(bytes);
            && (n == 1 || Begins(bytes[..n]))
            && forall k :: n < k <= |bytes| ==> !Begins(bytes[..k])
  {
    var n := DamagedLength(bytes);
    if n > 1 {
      DamagedBegins(bytes);
    }
    forall k | n < k <= |bytes| ensures !Begins(bytes[..k]) {
      if c :| bytes[..k] <= EncodeChar(c) {
        DamageReaches(bytes, k, c);
      }
    }
  }

  lemma DamagedBegins(bytes: seq<byte>)
    requires bytes != [] && DamagedLength(bytes) > 1
    ensures Begins(bytes[..DamagedLength(bytes)])
  {
    var n := DamagedLength(bytes);
    var whole := if bytes[0] < 0xF0 then [bytes[0], bytes[1], 0x80] else [bytes[0], bytes[1], if n == 3 then bytes[2] else 0x80, 0x80];
    assert DecodeChar(whole).Some?;
    ReadIsWritten(whole);
    var c := DecodeChar(whole).value.0;
    assert whole[..|whole|] == whole && EncodeChar(c) == whole && bytes[..n] <= whole;
  }

  lemma CharIsRead(c: char, more: seq<byte>)
    ensures DecodeLossy(EncodeChar(c) + more) == [c] + DecodeLossy(more)
  {
    hide EncodeChar, DecodeChar, DamagedLength;
    CharDecodes(c, more);
    var bytes := EncodeChar(c) + more;
    assert bytes != [] && bytes[|EncodeChar(c)|..] == more;
  }

  /** Text survives being written as bytes and read back, whatever follows it. */
  lemma {:induction false} TextDecodes(s: string, rest: seq<byte>)
    ensures DecodeLossy(Encode(s) + rest) == s + DecodeLossy(rest)
  {
    hide EncodeChar, DecodeLossy;
    if s == "" {
      assert Encode(s) + rest == rest && s + DecodeLossy(rest) == DecodeLossy(rest);
    } else {
      var more := Encode(s[1..]) + rest;
      assert Encode(s) + rest == EncodeChar(s[0]) + more;
      CharIsRead(s[0], more);
      TextDecodes(s[1..], rest);
      assert s == [s[0]] + s[1..];
      assert s + DecodeLossy(rest) == [s[0]] + (s[1..] + DecodeLossy(rest));
    }
  }

  lemma {:induction false} EncodeJoins(a: string, b: string)
    ensures Encode(a + b) == Encode(a) + Encode(b)
  {
    hide EncodeChar;
    if a == "" {
      assert a + b == b;
    } else {
      EncodeJoins(a[1..], b);
      assert (a + b)[1..] == a[1..] + b && (a + b)[0] == a[0];
      assert Encode(a + b) == EncodeChar(a[0]) + Encode(a[1..] + b);
    }
  }
}
