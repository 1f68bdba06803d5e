/**
 * The one-time secrets the backend stores: the six-digit numeric codes
 * (`Math.floor(100000 + Math.random() * 900000)`), kept as their decimal
 * text, and the reset tokens (`crypto.randomBytes(20).toString('hex')`).
 * The random choices themselves are parameters of the handlers.
 */
module Tokens {
  import opened JsText

  /** The range `Math.floor(100000 + Math.random() * 900000)` can produce. */
  type SixDigit = n: int | 100000 <= n <= 999999 witness 100000

  newtype byte = x: int | 0 <= x < 256

  /** What `crypto.randomBytes(20)` returns. */
  type RandomBytes20 = b: seq<byte> | |b| == 20 witness seq(20, i => 0 as byte)

  function DigitChar(d: nat): (c: char)
    requires d < 10
    ensures IsDigit(c)
  {
    ('0' as int + d) as char
  }

  function DigitValue(c: char): nat
    requires IsDigit(c)
  {
    c as int - '0' as int
  }

  /** `String(n)`: the decimal text of `n`, without leading zeros. */
  function DecimalText(n: nat): (s: string)
    ensures s != [] && AllDigits(s)
    decreases n
  {
    if n < 10 then [DigitChar(n)] else DecimalText(n / 10) + [DigitChar(n % 10)]
  }

  /** `Number(s)` for a string of decimal digits. */
  function DecimalValue(s: string): nat
    requires AllDigits(s)
  {
    if s == [] then 0 else 10 * DecimalValue(s[..|s| - 1]) + DigitValue(s[|s| - 1])
  }

  lemma {:induction false} DecimalRoundTrip(n: nat)
    ensures DecimalValue(DecimalText(n)) == n
    decreases n
  {
    if n >= 10 {
      DecimalRoundTrip(n / 10);
      var s := DecimalText(n);
      assert s[..|s| - 1] == DecimalText(n / 10);
    }
  }

  lemma {:induction false} DecimalLeadingDigit(n: nat)
    requires n >= 1
    ensures DecimalText(n)[0] != '0'
    decreases n
  {
    if n >= 10 {
      DecimalLeadingDigit(n / 10);
    }
  }

  lemma {:induction false} DecimalValuePositive(s: string)
    requires s != [] && AllDigits(s) && s[0] != '0'
    ensures DecimalValue(s) >= 1
    decreases |s|
  {
    if |s| > 1 {
      DecimalValuePositive(s[..|s| - 1]);
    }
  }

  /** A digit string without a leading zero is the decimal text of its value. */
  lemma {:induction false} TextOfValue(s: string)
    requires s != [] && AllDigits(s) && s[0] != '0'
    ensures DecimalText(DecimalValue(s)) == s
    decreases |s|
  {
    var front, d := s[..|s| - 1], DigitValue(s[|s| - 1]);
    if front == [] {
      assert s == [s[0]];
    } else {
      TextOfValue(front);
      DecimalValuePositive(front);
      var n := DecimalValue(s);
      assert n / 10 == DecimalValue(front) && n % 10 == d;
      assert s == front + [s[|s| - 1]];
    }
  }

  /** Every six-digit code is written with exactly six characters. */
  lemma SixDigitTextLength(code: SixDigit)
    ensures |DecimalText(code)| == 6 && DecimalText(code)[0] != '0'
  {
    var n1 := code / 10;
    var n2 := n1 / 10;
    var n3 := n2 / 10;
    var n4 := n3 / 10;
    var n5 := n4 / 10;
    assert 1 <= n5 < 10;
    assert |DecimalText(n5)| == 1;
    assert |DecimalText(n4)| == 2;
    assert |DecimalText(n3)| == 3;
    assert |DecimalText(n2)| == 4;
    assert |DecimalText(n1)| == 5;
    DecimalLeadingDigit(code);
  }

  /**
   * For a six-character digit string, comparing it as text with a stored
   * code and comparing its numeric value give the same answer.
   */
  lemma TextAndNumberAgree(s: string, code: SixDigit)
    requires |s| == 6 && AllDigits(s)
    ensures s == DecimalText(code) <==> DecimalValue(s) == code
  {
    if s == DecimalText(code) {
      DecimalRoundTrip(code);
    }
    if DecimalValue(s) == code {
      SixDigitTextLength(code);
      if s[0] == '0' {
        LeadingZeroValue(s);
      } else {
        TextOfValue(s);
      }
    }
  }

  /** A six-character digit string with a leading zero has a value below 100000. */
  lemma LeadingZeroValue(s: string)
    requires |s| == 6 && AllDigits(s) && s[0] == '0'
    ensures DecimalValue(s) < 100000
  {
    var s1, s2, s3, s4, s5 := s[..5], s[..4], s[..3], s[..2], s[..1];
    assert s5[..0] == [];
    assert s4[..1] == s5 && s3[..2] == s4 && s2[..3] == s3 && s1[..4] == s2;
    assert DecimalValue(s5) == 0;
    assert DecimalValue(s4) < 10;
    assert DecimalValue(s3) < 100;
    assert DecimalValue(s2) < 1000;
    assert DecimalValue(s1) < 10000;
  }

  /** `0`-`9` then `a`-`f`, as `toString('hex')` writes them. */
  function HexDigit(k: nat): (c: char)
    requires k < 16
    ensures IsHexChar(c)
  {
    if k < 10 then ('0' as int + k) as char else ('a' as int + k - 10) as char
  }

  predicate IsHexChar(c: char) { IsDigit(c) || ('a' <= c <= 'f') }

  function HexValue(c: char): (k: nat)
    requires IsHexChar(c)
    ensures k < 16
  {
    if IsDigit(c) then c as int - '0' as int else c as int - 'a' as int + 10
  }

  /** `buffer.toString('hex')`: two lower-case hex digits per byte, high nibble first. */
  function HexText(bytes: seq<byte>): (s: string)
    ensures |s| == 2 * |bytes|
    ensures forall i :: 0 <= i < |s| ==> IsHexChar(s[i])
  {
    if bytes == [] then []
    else [HexDigit(bytes[0] as int / 16), HexDigit(bytes[0] as int % 16)] + HexText(bytes[1..])
  }

  /** `Buffer.from(s, 'hex')` for well-formed input. */
  function ParseHex(s: string): seq<byte>
    requires |s| % 2 == 0 && forall i :: 0 <= i < |s| ==> IsHexChar(s[i])
  {
    if s == [] then [] else [(16 * HexValue(s[0]) + HexValue(s[1])) as byte] + ParseHex(s[2..])
  }

  lemma {:induction false} HexRoundTrip(bytes: seq<byte>)
    ensures ParseHex(HexText(bytes)) == bytes
  {
    if bytes != [] {
      HexRoundTrip(bytes[1..]);
      var s := HexText(bytes);
      assert s[2..] == HexText(bytes[1..]);
      var b := bytes[0] as int;
      assert HexValue(HexDigit(b / 16)) == b / 16;
      assert HexValue(HexDigit(b % 16)) == b % 16;
    }
  }

  /** Distinct random bytes give distinct reset tokens. */
  lemma HexTextInjective(a: seq<byte>, b: seq<byte>)
    requires HexText(a) == HexText(b)
    ensures a == b
  {
    HexRoundTrip(a);
    HexRoundTrip(b);
  }

  /** A reset token has 40 characters, so it never equals a six-digit code. */
  lemma ResetTokenIsNotACode(bytes: RandomBytes20, code: SixDigit)
    ensures |HexText(bytes)| == 40
    ensures HexText(bytes) != DecimalText(code)
  {
    SixDigitTextLength(code);
  }
}
