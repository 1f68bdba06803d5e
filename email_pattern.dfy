/**
 * The e-mail shape test both registration pages use,
 * `/^[^\s@]+@[^\s@]+\.[^\s@]+$/.test(email)`.
 *
 * `MatchesEmailRegex` reads the pattern literally: three non-empty runs of
 * characters that are neither white space nor '@', joined by an '@' and a '.'.
 * `IsEmailShaped` states the same test as a list of facts about the whole
 * string, and `EmailShapeIsRegex` proves the two agree.
 */
module EmailPattern {
  import opened JsText

  /** `[^\s@]` */
  predicate PlainChar(c: char) { !IsWhitespace(c) && c != '@' }

  predicate AllPlain(t: string) { forall i :: 0 <= i < |t| ==> PlainChar(t[i]) }

  /** The regular expression, one run at a time: `[^\s@]+ @ [^\s@]+ \. [^\s@]+`. */
  ghost predicate MatchesEmailRegex(s: string) {
    exists p, q ::
      0 < p && p + 1 < q && q + 1 < |s| && s[p] == '@' && s[q] == '.'
      && AllPlain(s[..p]) && AllPlain(s[p + 1..q]) && AllPlain(s[q + 1..])
  }

  function CountOf(s: string, c: char): nat {
    if s == [] then 0 else (if s[0] == c then 1 else 0) + CountOf(s[1..], c)
  }

  /**
   * No white space, exactly one '@' with something before it, and after it a
   * '.' that has at least one character on each side.
   */
  predicate IsEmailShaped(s: string) {
    && (forall i :: 0 <= i < |s| ==> !IsWhitespace(s[i]))
    && CountOf(s, '@') == 1
    && exists p, q :: 0 < p < q - 1 && q + 1 < |s| && s[p] == '@' && s[q] == '.'
  }

  lemma {:induction false} CountOfAppend(a: string, b: string, c: char)
    ensures CountOf(a + b, c) == CountOf(a, c) + CountOf(b, c)
  {
    if a == [] {
      assert a + b == b;
    } else {
      assert (a + b)[1..] == a[1..] + b;
      CountOfAppend(a[1..], b, c);
    }
  }

  lemma {:induction false} CountOfZero(t: string, c: char)
    ensures CountOf(t, c) == 0 <==> forall i :: 0 <= i < |t| ==> t[i] != c
  {
    if t != [] {
      CountOfZero(t[1..], c);
      if CountOf(t, c) == 0 {
        forall i | 0 <= i < |t| ensures t[i] != c {
          if i > 0 { assert t[i] == t[1..][i - 1]; }
        }
      }
      if forall i :: 0 <= i < |t| ==> t[i] != c {
        forall i | 0 <= i < |t[1..]| ensures t[1..][i] != c {
          assert t[1..][i] == t[i + 1];
        }
      }
    }
  }

  /** Splitting `s` around position `p`. */
  lemma CountAround(s: string, p: int, c: char)
    requires 0 <= p < |s|
    ensures CountOf(s, c) == CountOf(s[..p], c) + (if s[p] == c then 1 else 0) + CountOf(s[p + 1..], c)
  {
    assert s == s[..p] + s[p..];
    CountOfAppend(s[..p], s[p..], c);
    assert s[p..][1..] == s[p + 1..];
  }

  /** Outside the '@' at `p`, every character of a match is plain. */
  lemma PlainOutsideAt(s: string, p: int, q: int)
    requires 0 < p && p + 1 < q && q + 1 < |s| && s[q] == '.'
    requires AllPlain(s[..p]) && AllPlain(s[p + 1..q]) && AllPlain(s[q + 1..])
    ensures forall i :: 0 <= i < |s| && i != p ==> PlainChar(s[i])
  {
    forall i | 0 <= i < |s| && i != p ensures PlainChar(s[i]) {
      if i < p { assert s[i] == s[..p][i]; }
      else if i < q { assert s[i] == s[p + 1..q][i - p - 1]; }
      else if q < i { assert s[i] == s[q + 1..][i - q - 1]; }
    }
  }

  /** A string whose only '@' is at `p` counts one '@'. */
  lemma SingleAt(s: string, p: int)
    requires 0 <= p < |s| && s[p] == '@'
    requires forall i :: 0 <= i < |s| && i != p ==> s[i] != '@'
    ensures CountOf(s, '@') == 1
  {
    var local, after := s[..p], s[p + 1..];
    forall i | 0 <= i < |local| ensures local[i] != '@' {
      assert local[i] == s[i];
    }
    forall i | 0 <= i < |after| ensures after[i] != '@' {
      assert after[i] == s[p + 1 + i];
    }
    CountAround(s, p, '@');
    CountOfZero(local, '@');
    CountOfZero(after, '@');
  }

  lemma RegexImpliesShape(s: string)
    requires MatchesEmailRegex(s)
    ensures IsEmailShaped(s)
  {
    var p, q :| 0 < p && p + 1 < q && q + 1 < |s| && s[p] == '@' && s[q] == '.'
      && AllPlain(s[..p]) && AllPlain(s[p + 1..q]) && AllPlain(s[q + 1..]);
    PlainOutsideAt(s, p, q);
    SingleAt(s, p);
    assert !IsWhitespace(s[p]);
  }

  lemma ShapeImpliesRegex(s: string)
    requires IsEmailShaped(s)
    ensures MatchesEmailRegex(s)
  {
    var p, q :| 0 < p < q - 1 && q + 1 < |s| && s[p] == '@' && s[q] == '.';
    var local, after := s[..p], s[p + 1..];
    CountAround(s, p, '@');
    CountOfZero(local, '@');
    CountOfZero(after, '@');
    assert AllPlain(local) by {
      forall i | 0 <= i < |local| ensures PlainChar(local[i]) {
        assert local[i] == s[i];
      }
    }
    var mid := s[p + 1..q];
    assert AllPlain(mid) by {
      forall i | 0 <= i < |mid| ensures PlainChar(mid[i]) {
        assert mid[i] == after[i] == s[p + 1 + i];
      }
    }
    var tail := s[q + 1..];
    assert AllPlain(tail) by {
      forall i | 0 <= i < |tail| ensures PlainChar(tail[i]) {
        assert tail[i] == after[q - p + i] == s[q + 1 + i];
      }
    }
  }

  lemma EmailShapeIsRegex(s: string)
    ensures IsEmailShaped(s) <==> MatchesEmailRegex(s)
  {
    if MatchesEmailRegex(s) { RegexImpliesShape(s); }
    if IsEmailShaped(s) { ShapeImpliesRegex(s); }
  }

  /** A string the pattern accepts is never blank: `email.trim()` is not empty. */
  lemma EmailShapeNotBlank(s: string)
    requires IsEmailShaped(s)
    ensures s != "" && Trim(s) != ""
  {
    var p, q :| 0 < p < q - 1 && q + 1 < |s| && s[p] == '@' && s[q] == '.';
    assert !IsWhitespace(s[p]);
    TrimNonEmpty(s);
  }
}
