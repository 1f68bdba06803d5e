/**
 * Character classes and string operations with the meaning JavaScript gives
 * them in the frontend: ASCII ranges inside regular-expression classes
 * (`[a-z]`, `[A-Z]`, `[0-9]`, `\d`), the ECMAScript white-space set used by
 * `\s` and by `String.prototype.trim`, and `String.prototype.replace` with a
 * global "not a digit" pattern.
 */
module JsText {

  predicate IsDigit(c: char) { '0' <= c <= '9' }
  predicate IsUpper(c: char) { 'A' <= c <= 'Z' }
  predicate IsLower(c: char) { 'a' <= c <= 'z' }
  predicate IsAlphanumeric(c: char) { IsDigit(c) || IsUpper(c) || IsLower(c) }

  /** ECMAScript WhiteSpace and LineTerminator code points (`\s`, `trim`). */
  predicate IsWhitespace(c: char) {
    var n := c as int;
    n == 0x09 || n == 0x0A || n == 0x0B || n == 0x0C || n == 0x0D || n == 0x20
    || n == 0xA0 || n == 0x1680 || (0x2000 <= n <= 0x200A) || n == 0x2028
    || n == 0x2029 || n == 0x202F || n == 0x205F || n == 0x3000 || n == 0xFEFF
  }

  /** `/[a-z]/.test(s)` and its siblings. */
  predicate HasLower(s: string) { exists i :: 0 <= i < |s| && IsLower(s[i]) }
  predicate HasUpper(s: string) { exists i :: 0 <= i < |s| && IsUpper(s[i]) }
  predicate HasDigit(s: string) { exists i :: 0 <= i < |s| && IsDigit(s[i]) }
  /** `/[^A-Za-z0-9]/.test(s)` */
  predicate HasNonAlphanumeric(s: string) { exists i :: 0 <= i < |s| && !IsAlphanumeric(s[i]) }
  /** `/[chars]/.test(s)` for a class that lists its characters one by one. */
  predicate HasCharFrom(s: string, chars: string) { exists i :: 0 <= i < |s| && s[i] in chars }
  predicate HasNonWhitespace(s: string) { exists i :: 0 <= i < |s| && !IsWhitespace(s[i]) }
  predicate AllDigits(s: string) { forall i :: 0 <= i < |s| ==> IsDigit(s[i]) }

  function TrimStart(s: string): string {
    if s != [] && IsWhitespace(s[0]) then TrimStart(s[1..]) else s
  }

  function TrimEnd(s: string): string {
    if s != [] && IsWhitespace(s[|s| - 1]) then TrimEnd(s[..|s| - 1]) else s
  }

  /** `s.trim()` */
  function Trim(s: string): string { TrimEnd(TrimStart(s)) }

  /** Number of characters of `s` that are not white space. */
  function CountNonWhitespace(s: string): nat {
    if s == [] then 0 else (if IsWhitespace(s[0]) then 0 else 1) + CountNonWhitespace(s[1..])
  }

  /** `s.replace(/[^0-9]/g, "")`, equally `s.replace(/\D/g, "")`. */
  function Digits(s: string): (d: string)
    ensures AllDigits(d)
    ensures |d| <= |s|
  {
    if s == [] then [] else (if IsDigit(s[0]) then [s[0]] else []) + Digits(s[1..])
  }

  /** `Math.min(a, b)` */
  function Min(a: int, b: int): int { if a <= b then a else b }

  /** `parts.join("")` */
  function Join(parts: seq<string>): string {
    if parts == [] then [] else parts[0] + Join(parts[1..])
  }

  lemma {:induction false} DigitsOfDigits(s: string)
    requires AllDigits(s)
    ensures Digits(s) == s
  {
    if s != [] { DigitsOfDigits(s[1..]); }
  }

  lemma {:induction false} TrimStartShape(s: string)
    ensures var t := TrimStart(s);
      |t| <= |s| && t == s[|s| - |t|..]
      && (t != [] ==> !IsWhitespace(t[0]))
      && CountNonWhitespace(t) == CountNonWhitespace(s)
  {
    if s != [] && IsWhitespace(s[0]) {
      TrimStartShape(s[1..]);
      var t := TrimStart(s[1..]);
      assert s[1..][|s[1..]| - |t|..] == s[|s| - |t|..];
    }
  }

  lemma {:induction false} TrimStartEmpty(s: string)
    ensures TrimStart(s) == [] <==> !HasNonWhitespace(s)
  {
    if s != [] && IsWhitespace(s[0]) {
      TrimStartEmpty(s[1..]);
      if HasNonWhitespace(s) {
        var i :| 0 <= i < |s| && !IsWhitespace(s[i]);
        assert s[1..][i - 1] == s[i];
      }
      if HasNonWhitespace(s[1..]) {
        var i :| 0 <= i < |s[1..]| && !IsWhitespace(s[1..][i]);
        assert s[i + 1] == s[1..][i];
      }
    } else if s != [] {
      assert !IsWhitespace(s[0]);
    }
  }

  lemma {:induction false} CountNonWhitespaceSnoc(s: string, c: char)
    ensures CountNonWhitespace(s + [c]) == CountNonWhitespace(s) + (if IsWhitespace(c) then 0 else 1)
  {
    if s != [] {
      assert (s + [c])[1..] == s[1..] + [c];
      CountNonWhitespaceSnoc(s[1..], c);
    } else {
      assert (s + [c])[1..] == [];
    }
  }

  lemma {:induction false} TrimEndShape(s: string)
    ensures var t := TrimEnd(s);
      |t| <= |s| && t == s[..|t|]
      && (t != [] ==> !IsWhitespace(t[|t| - 1]))
      && CountNonWhitespace(t) == CountNonWhitespace(s)
  {
    if s != [] && IsWhitespace(s[|s| - 1]) {
      var front := s[..|s| - 1];
      TrimEndShape(front);
      assert s == front + [s[|s| - 1]];
      CountNonWhitespaceSnoc(front, s[|s| - 1]);
    }
  }

  /** A string that starts with a non-white-space character counts it. */
  lemma FirstCounts(t: string)
    requires t != [] && !IsWhitespace(t[0])
    ensures CountNonWhitespace(t) == 1 + CountNonWhitespace(t[1..])
  {
  }

  lemma {:induction false} LastCounts(t: string)
    requires t != [] && !IsWhitespace(t[|t| - 1])
    ensures CountNonWhitespace(t) >= 1
  {
    assert t == t[..|t| - 1] + [t[|t| - 1]];
    CountNonWhitespaceSnoc(t[..|t| - 1], t[|t| - 1]);
  }

  lemma {:induction false} CountNonWhitespaceBound(t: string)
    ensures CountNonWhitespace(t) <= |t|
  {
    if t != [] { CountNonWhitespaceBound(t[1..]); }
  }

  /**
   * `s.trim().length >= 2` holds exactly when `s` has at least two
   * characters that are not white space.
   */
  lemma TrimmedLengthAtLeastTwo(s: string)
    ensures |Trim(s)| >= 2 <==> CountNonWhitespace(s) >= 2
  {
    TrimStartShape(s);
    var u := TrimStart(s);
    TrimEndShape(u);
    var t := TrimEnd(u);
    CountNonWhitespaceBound(t);
    if |t| >= 2 {
      assert t[0] == u[0];
      FirstCounts(t);
      assert t[1..][|t[1..]| - 1] == t[|t| - 1];
      LastCounts(t[1..]);
    }
  }

  /** `s.trim() !== ""` holds exactly when `s` has a non-white-space character. */
  lemma TrimNonEmpty(s: string)
    ensures Trim(s) != [] <==> HasNonWhitespace(s)
  {
    TrimStartShape(s);
    TrimStartEmpty(s);
    TrimEndShape(TrimStart(s));
    var u := TrimStart(s);
    if u != [] {
      assert TrimEnd(u) != [] by {
        LastCountsOrEmpty(u);
      }
    }
  }

  lemma {:induction false} LastCountsOrEmpty(u: string)
    requires u != [] && !IsWhitespace(u[0])
    ensures TrimEnd(u) != []
  {
    if IsWhitespace(u[|u| - 1]) {
      assert |u| > 1;
      var front := u[..|u| - 1];
      assert front[0] == u[0];
      LastCountsOrEmpty(front);
    }
  }

  /** Each extracted digit comes from the input, in order (`replace` keeps order). */
  lemma {:induction false} DigitsOfAppend(a: string, b: string)
    ensures Digits(a + b) == Digits(a) + Digits(b)
  {
    if a == [] {
      assert a + b == b;
    } else {
      assert (a + b)[1..] == a[1..] + b;
      DigitsOfAppend(a[1..], b);
    }
  }
}
