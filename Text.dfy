/**
 * The two string operations the lookup normalises with: JavaScript's
 * `String.prototype.trim` (which strips the WhiteSpace and LineTerminator
 * characters of ECMAScript) and `String.prototype.toLowerCase`, the latter
 * on the ASCII letters only. The food names are Arabic, which has no case,
 * or lower-case English; an input holding a non-ASCII cased letter that
 * JavaScript lower-cases to ASCII (U+212A KELVIN SIGN becomes `k`) is looked
 * up differently from the code.
 */
module Text {

  /** The characters `trim` removes: ECMAScript WhiteSpace and LineTerminator. */
  predicate IsWhite(c: char) {
    c == ' ' || c == '\t' || c == '\n' || c == '\r' ||
    c == '\U{000B}' || c == '\U{000C}' || c == '\U{00A0}' || c == '\U{FEFF}' ||
    c == '\U{1680}' || ('\U{2000}' <= c <= '\U{200A}') ||
    c == '\U{2028}' || c == '\U{2029}' || c == '\U{202F}' || c == '\U{205F}' ||
    c == '\U{3000}'
  }

  predicate AllWhite(s: string) {
    forall i | 0 <= i < |s| :: IsWhite(s[i])
  }

  /** `s` with its leading whitespace removed; its contract is `TrimStartSpec`. */
  function TrimStart(s: string): string {
    if |s| > 0 && IsWhite(s[0]) then TrimStart(s[1..]) else s
  }

  /** `s` with its trailing whitespace removed; its contract is `TrimEndSpec`. */
  function TrimEnd(s: string): string {
    if |s| > 0 && IsWhite(s[|s| - 1]) then TrimEnd(s[..|s| - 1]) else s
  }

  /** `s.trim()`; its contract is `TrimSpec`. */
  function Trim(s: string): string {
    TrimEnd(TrimStart(s))
  }

  /**
   * What `TrimStart` leaves is a suffix of `s` that does not start with
   * whitespace, and what it cuts off is all whitespace.
   */
  lemma {:induction false} TrimStartSpec(s: string)
    ensures var r := TrimStart(s);
      |r| <= |s| && r == s[|s| - |r|..] && AllWhite(s[..|s| - |r|]) &&
      (r == [] || !IsWhite(r[0]))
  {
    if |s| > 0 && IsWhite(s[0]) {
      TrimStartSpec(s[1..]);
      var r := TrimStart(s);
      assert s[1..][|s| - 1 - |r|..] == s[|s| - |r|..];
      assert s[..|s| - |r|] == [s[0]] + s[1..][..|s| - 1 - |r|];
    }
  }

  /**
   * What `TrimEnd` leaves is a prefix of `s` that does not end with
   * whitespace, and what it cuts off is all whitespace.
   */
  lemma {:induction false} TrimEndSpec(s: string)
    ensures var r := TrimEnd(s);
      |r| <= |s| && r == s[..|r|] && AllWhite(s[|r|..]) &&
      (r == [] || !IsWhite(r[|r| - 1]))
  {
    if |s| > 0 && IsWhite(s[|s| - 1]) {
      TrimEndSpec(s[..|s| - 1]);
      var r := TrimEnd(s);
      assert s[..|s| - 1][..|r|] == s[..|r|];
      assert s[|r|..] == s[..|s| - 1][|r|..] + [s[|s| - 1]];
    }
  }

  /**
   * `s.trim()` is the slice `s[i..i + |r|]` left after cutting whitespace
   * off both ends, and it neither starts nor ends with whitespace.
   */
  lemma TrimSpec(s: string)
    ensures var r := Trim(s);
      |r| <= |TrimStart(s)| <= |s| && (r == [] || (!IsWhite(r[0]) && !IsWhite(r[|r| - 1]))) &&
      var i := |s| - |TrimStart(s)|;
      s[i..i + |r|] == r && AllWhite(s[..i]) && AllWhite(s[i + |r|..])
  {
    var t := TrimStart(s);
    TrimStartSpec(s);
    TrimEndSpec(t);
    var r := TrimEnd(t);
    var i := |s| - |t|;
    assert s[i..i + |r|] == r by { assert t == s[i..]; }
    assert s[i + |r|..] == t[|r|..];
  }

  /** `toLowerCase` of one character, on ASCII letters. */
  function LowerChar(c: char): (d: char)
    ensures IsWhite(d) == IsWhite(c)
    ensures 'A' <= c <= 'Z' ==> d as int == c as int + 32
    ensures !('A' <= c <= 'Z') ==> d == c
  {
    if 'A' <= c <= 'Z' then (c as int + 32) as char else c
  }

  /** `s.toLowerCase()`, character by character. */
  function ToLower(s: string): (r: string)
    ensures |r| == |s|
    ensures forall i | 0 <= i < |s| :: r[i] == LowerChar(s[i])
  {
    seq(|s|, i requires 0 <= i < |s| => LowerChar(s[i]))
  }

  /** The key the lookup compares against: `name.trim().toLowerCase()`. */
  function Normalize(name: string): string {
    ToLower(Trim(name))
  }

  /** A trimmed string is already trimmed. */
  lemma TrimIdempotent(s: string)
    ensures Trim(Trim(s)) == Trim(s)
  {
    TrimSpec(s);
  }

  /** Lower-casing a lower-cased string changes nothing. */
  lemma ToLowerIdempotent(s: string)
    ensures ToLower(ToLower(s)) == ToLower(s)
  {
  }

  lemma {:induction false} TrimStartOfPadded(pre: string, s: string)
    requires AllWhite(pre)
    ensures TrimStart(pre + s) == TrimStart(s)
  {
    if pre == [] {
      assert pre + s == s;
    } else {
      var ps := pre + s;
      assert ps[0] == pre[0];
      assert IsWhite(ps[0]);
      assert TrimStart(ps) == TrimStart(ps[1..]);
      assert ps[1..] == pre[1..] + s;
      assert AllWhite(pre[1..]);
      TrimStartOfPadded(pre[1..], s);
    }
  }

  lemma {:induction false} TrimEndOfPadded(s: string, post: string)
    requires AllWhite(post)
    ensures TrimEnd(s + post) == TrimEnd(s)
  {
    if post == [] {
      assert s + post == s;
    } else {
      var sp := s + post;
      assert sp[|sp| - 1] == post[|post| - 1];
      assert IsWhite(sp[|sp| - 1]);
      assert TrimEnd(sp) == TrimEnd(sp[..|sp| - 1]);
      assert sp[..|sp| - 1] == s + post[..|post| - 1];
      assert AllWhite(post[..|post| - 1]);
      TrimEndOfPadded(s, post[..|post| - 1]);
    }
  }

  /** Trailing whitespace survives `TrimStart` unless the whole string is whitespace. */
  lemma {:induction false} TrimStartKeepsTail(s: string, post: string)
    requires AllWhite(post)
    ensures TrimStart(s + post) == if TrimStart(s) == [] then [] else TrimStart(s) + post
  {
    if s == [] {
      assert s + post == post;
      TrimStartOfPadded(post, []);
      assert post + [] == post;
    } else if IsWhite(s[0]) {
      assert (s + post)[1..] == s[1..] + post;
      TrimStartKeepsTail(s[1..], post);
    }
  }

  /**
   * Whitespace added before and after a name does not change its trimmed
   * form, so `"  apple "` and `"apple"` trim alike.
   */
  lemma TrimIgnoresPadding(pre: string, s: string, post: string)
    requires AllWhite(pre) && AllWhite(post)
    ensures Trim(pre + s + post) == Trim(s)
  {
    assert pre + s + post == pre + (s + post);
    TrimStartOfPadded(pre, s + post);
    TrimStartKeepsTail(s, post);
    if TrimStart(s) != [] {
      TrimEndOfPadded(TrimStart(s), post);
    }
  }

  lemma {:induction false} LowerCommutesWithTrimStart(s: string)
    ensures TrimStart(ToLower(s)) == ToLower(TrimStart(s))
  {
    if s != [] {
      assert ToLower(s)[1..] == ToLower(s[1..]);
      LowerCommutesWithTrimStart(s[1..]);
    }
  }

  lemma {:induction false} LowerCommutesWithTrimEnd(s: string)
    ensures TrimEnd(ToLower(s)) == ToLower(TrimEnd(s))
  {
    if s != [] {
      assert ToLower(s)[..|s| - 1] == ToLower(s[..|s| - 1]);
      LowerCommutesWithTrimEnd(s[..|s| - 1]);
    }
  }

  /** Trimming and lower-casing may be done in either order. */
  lemma LowerCommutesWithTrim(s: string)
    ensures Normalize(s) == Trim(ToLower(s))
  {
    LowerCommutesWithTrimStart(s);
    LowerCommutesWithTrimEnd(TrimStart(s));
  }

  /**
   * Two names that differ only in ASCII letter case and in surrounding
   * whitespace have the same normalised form.
   */
  lemma NormalizeIgnoresCaseAndPadding(pre: string, a: string, post: string, b: string)
    requires AllWhite(pre) && AllWhite(post)
    requires ToLower(a) == ToLower(b)
    ensures Normalize(pre + a + post) == Normalize(b)
  {
    TrimIgnoresPadding(pre, a, post);
    LowerCommutesWithTrim(a);
    LowerCommutesWithTrim(b);
  }

  /** Normalising is idempotent: the lookup's own input normalises to itself. */
  lemma NormalizeIdempotent(name: string)
    ensures Normalize(Normalize(name)) == Normalize(name)
  {
    LowerCommutesWithTrim(Trim(name));
    TrimIdempotent(name);
    ToLowerIdempotent(Trim(name));
  }
}
