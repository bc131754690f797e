/** The UTF-8 encoding (RFC 3629, section 3) and the decoder that accepts exactly what it yields. */
module Utf8 {
  import opened Wrappers
  import opened Text
  import opened Bytes

  function EncodeChar(c: char): (b: seq<byte>)
    ensures |b| == Utf8Width(c)
    ensures c < '\U{80}' ==> b == [c as int]
    ensures '\U{80}' <= c ==> forall k :: 0 <= k < |b| ==> b[k] >= 0x80
  {
    var n := c as int;
    if n < 0x80 then [n]
    else if n < 0x800 then [0xC0 + n / 64, 0x80 + n % 64]
    else if n < 0x1_0000 then [0xE0 + n / 4096, 0x80 + n / 64 % 64, 0x80 + n % 64]
    else [0xF0 + n / 262144, 0x80 + n / 4096 % 64, 0x80 + n / 64 % 64, 0x80 + n % 64]
  }

  function Encode(s: string): seq<byte> {
    if s == [] then [] else EncodeChar(s[0]) + Encode(s[1..])
  }

  /** Cutting a number into digits to the base 64 and putting it together again. */
  lemma Digits64(n: nat)
    ensures n == n / 64 * 64 + n % 64
    ensures n / 64 == n / 4096 * 64 + n / 64 % 64
    ensures n / 4096 == n / 262144 * 64 + n / 4096 % 64
  {
  }

  lemma FirstOfEncoded(c: char, rest: seq<byte>)
    ensures FirstScalar(EncodeChar(c) + rest) == Some((c, |EncodeChar(c)|))
  {
    var n, b := c as int, EncodeChar(c) + rest;
    Digits64(n);
    if n < 0x80 {
      assert b[0] == n;
    } else if n < 0x800 {
      assert b[0] == 0xC0 + n / 64 && b[1] == 0x80 + n % 64;
      assert FirstScalar(b) == Some((c, 2));
    } else if n < 0x1_0000 {
      assert b[0] == 0xE0 + n / 4096 && b[1] == 0x80 + n / 64 % 64 && b[2] == 0x80 + n % 64;
      assert FirstScalar(b) == Some((c, 3));
    } else {
      assert b[0] == 0xF0 + n / 262144 && b[1] == 0x80 + n / 4096 % 64 && b[2] == 0x80 + n / 64 % 64 && b[3] == 0x80 + n % 64;
      assert FirstScalar(b) == Some((c, 4));
    }
  }

  lemma EncodedFirst(b: seq<byte>)
    requires FirstScalar(b).Some?
    ensures b[..FirstScalar(b).value.1] == EncodeChar(FirstScalar(b).value.0)
  {
    var (c, width) := FirstScalar(b).value;
    var n := c as int;
    if b[0] < 0x80 {
      assert b[..1] == [b[0]];
    } else if b[0] < 0xE0 {
      Rejoined(b[0] as int - 0xC0, b[1] as int - 0x80);
      assert EncodeChar(c) == [b[0], b[1]];
    } else if b[0] < 0xF0 {
      Rejoined((b[0] as int - 0xE0) * 64 + (b[1] as int - 0x80), b[2] as int - 0x80);
      Rejoined(b[0] as int - 0xE0, b[1] as int - 0x80);
      assert EncodeChar(c) == [b[0], b[1], b[2]];
    } else {
      Rejoined(((b[0] as int - 0xF0) * 64 + (b[1] as int - 0x80)) * 64 + (b[2] as int - 0x80), b[3] as int - 0x80);
      Rejoined((b[0] as int - 0xF0) * 64 + (b[1] as int - 0x80), b[2] as int - 0x80);
      Rejoined(b[0] as int - 0xF0, b[1] as int - 0x80);
      assert EncodeChar(c) == [b[0], b[1], b[2], b[3]];
    }
  }

  lemma Rejoined(high: nat, low: nat)
    requires low < 64
    ensures (high * 64 + low) / 64 == high && (high * 64 + low) % 64 == low
  {
  }

  /** Bytes decode to a text exactly if they are its encoding. */
  lemma {:induction false} DecodesIff(b: seq<byte>, s: string)
    ensures DecodeUtf8(b) == Some(s) <==> b == Encode(s)
  {
    DecodeEncoded(s);
    if DecodeUtf8(b) == Some(s) {
      EncodeDecoded(b);
    }
  }

  lemma {:induction false} DecodeEncoded(s: string)
    ensures DecodeUtf8(Encode(s)) == Some(s)
  {
    if s != [] {
      var front := EncodeChar(s[0]);
      FirstOfEncoded(s[0], Encode(s[1..]));
      assert Encode(s)[|front|..] == Encode(s[1..]);
      DecodeEncoded(s[1..]);
      assert [s[0]] + s[1..] == s;
    }
  }

  lemma {:induction false} EncodeDecoded(b: seq<byte>)
    requires DecodeUtf8(b).Some?
    ensures Encode(DecodeUtf8(b).value) == b
  {
    if b != [] {
      var (c, width) := FirstScalar(b).value;
      EncodeDecoded(b[width..]);
      EncodedFirst(b);
      var rest := DecodeUtf8(b[width..]).value;
      assert DecodeUtf8(b).value == [c] + rest && ([c] + rest)[1..] == rest;
      assert b == b[..width] + b[width..];
    }
  }

  lemma {:induction false} EncodeAppend(s: string, t: string)
    ensures Encode(s + t) == Encode(s) + Encode(t)
    decreases |s|
  {
    if s == [] {
      assert s + t == t;
    } else {
      EncodeAppend(s[1..], t);
      EncodeCons(s[0], s[1..]);
      EncodeCons(s[0], s[1..] + t);
      assert s == [s[0]] + s[1..];
      assert s + t == [s[0]] + (s[1..] + t);
    }
  }

  lemma EncodeCons(c: char, s: string)
    ensures Encode([c] + s) == EncodeChar(c) + Encode(s)
  {
    assert ([c] + s)[1..] == s;
  }

  /** `str::len` counts the bytes of the encoding. */
  lemma {:induction false} LengthIsEncoded(s: string)
    ensures Utf8Len(s) == |Encode(s)|
  {
    if s != [] {
      LengthIsEncoded(s[1..]);
    }
  }

  lemma {:induction false} AsciiEncodes(s: string)
    requires IsAscii(s)
    ensures Encode(s) == AsciiBytes(s)
  {
    if s != [] {
      AsciiEncodes(s[1..]);
      assert AsciiBytes(s) == [s[0] as int] + AsciiBytes(s[1..]);
    }
  }

  /** An ASCII byte of the encoding stands for that character. */
  lemma {:induction false} AsciiByteIsChar(s: string, c: char)
    requires c < '\U{80}' && c !in s
    ensures (c as int) !in Encode(s)
  {
    if s != [] {
      AsciiByteIsChar(s[1..], c);
    }
  }
}
