/**
 * The part of ECMAScript's string semantics the request handler relies on:
 * the character classes WhiteSpace and LineTerminator, and
 * String.prototype.trim, which removes both from each end of a string.
 */
module JsString {

  /** The ECMAScript LineTerminator characters: LF, CR, LS and PS. */
  predicate IsLineTerminator(c: char) {
    c == '\n' || c == '\r' || c == '\U{2028}' || c == '\U{2029}'
  }

  /** The ECMAScript WhiteSpace characters: TAB, VT, FF, ZWNBSP and every space separator (Zs). */
  predicate IsWhiteSpace(c: char) {
    c == '\t' || c == '\U{000B}' || c == '\U{000C}' || c == '\U{FEFF}' ||
    c == ' ' || c == '\U{00A0}' || c == '\U{1680}' || ('\U{2000}' <= c <= '\U{200A}') ||
    c == '\U{202F}' || c == '\U{205F}' || c == '\U{3000}'
  }

  /** What trim removes: WhiteSpace or LineTerminator. */
  predicate IsTrimmable(c: char) {
    IsWhiteSpace(c) || IsLineTerminator(c)
  }

  predicate AllTrimmable(s: string) {
    forall i :: 0 <= i < |s| ==> IsTrimmable(s[i])
  }

  /** Drops the longest trimmable prefix. */
  function TrimStart(s: string): (r: string)
    ensures |r| <= |s|
  {
    if |s| > 0 && IsTrimmable(s[0]) then TrimStart(s[1..]) else s
  }

  /** Drops the longest trimmable suffix. */
  function TrimEnd(s: string): (r: string)
    ensures |r| <= |s|
  {
    if |s| > 0 && IsTrimmable(s[|s| - 1]) then TrimEnd(s[..|s| - 1]) else s
  }

  /**
   * String.prototype.trim: the infix of `s` left after removing every
   * trimmable character from both ends.
   */
  function Trim(s: string): (r: string)
    ensures |r| <= |s|
  {
    TrimEnd(TrimStart(s))
  }

  /** TrimStart leaves a suffix; what it drops is all trimmable, and what it leaves does not start trimmable. */
  lemma {:induction false} TrimStartSpec(s: string)
    ensures TrimStart(s) == s[|s| - |TrimStart(s)|..]
    ensures AllTrimmable(s[..|s| - |TrimStart(s)|])
    ensures TrimStart(s) == [] || !IsTrimmable(TrimStart(s)[0])
    decreases |s|
  {
    if |s| > 0 && IsTrimmable(s[0]) {
      var t := s[1..];
      TrimStartSpec(t);
      var d := |s| - |TrimStart(s)|;
      assert t[|t| - |TrimStart(t)|..] == s[d..];
      assert forall i :: 1 <= i < d ==> s[..d][i] == t[..d - 1][i - 1];
    } else {
      assert s[..0] == [];
    }
  }

  /** TrimEnd leaves a prefix; what it drops is all trimmable, and what it leaves does not end trimmable. */
  lemma {:induction false} TrimEndSpec(s: string)
    ensures TrimEnd(s) == s[..|TrimEnd(s)|]
    ensures AllTrimmable(s[|TrimEnd(s)|..])
    ensures TrimEnd(s) == [] || !IsTrimmable(TrimEnd(s)[|TrimEnd(s)| - 1])
    decreases |s|
  {
    if |s| > 0 && IsTrimmable(s[|s| - 1]) {
      var t := s[..|s| - 1];
      TrimEndSpec(t);
      var n := |TrimEnd(s)|;
      assert t[..n] == s[..n];
      assert forall j :: 0 <= j < |s| - 1 - n ==> s[n..][j] == t[n..][j];
    } else {
      assert s[|s|..] == [];
    }
  }

  /**
   * Trim leaves an infix of its input whose surroundings on both sides are
   * all trimmable and whose first and last characters are not.
   */
  lemma TrimSpec(s: string)
    ensures var r := Trim(s);
            r == [] || (!IsTrimmable(r[0]) && !IsTrimmable(r[|r| - 1]))
    ensures var r := Trim(s);
            exists i :: 0 <= i <= |s| - |r| && s[i..i + |r|] == r &&
                        AllTrimmable(s[..i]) && AllTrimmable(s[i + |r|..])
  {
    var t := TrimStart(s);
    var r := TrimEnd(t);
    TrimStartSpec(s);
    TrimEndSpec(t);
    var i := |s| - |t|;
    assert s[i..i + |r|] == r;
    assert s[i + |r|..] == t[|r|..];
    if r != [] {
      assert r[0] == t[0];
    }
  }

  /** A trimmable prefix does not change what TrimStart leaves. */
  lemma {:induction false} TrimStartSkips(a: string, t: string)
    requires AllTrimmable(a)
    ensures TrimStart(a + t) == TrimStart(t)
  {
    if a == [] {
      assert a + t == t;
    } else {
      assert (a + t)[0] == a[0] && IsTrimmable(a[0]);
      assert (a + t)[1..] == a[1..] + t;
      TrimStartSkips(a[1..], t);
    }
  }

  /** A trimmable suffix does not change what TrimEnd leaves. */
  lemma {:induction false} TrimEndSkips(t: string, b: string)
    requires AllTrimmable(b)
    ensures TrimEnd(t + b) == TrimEnd(t)
  {
    if b == [] {
      assert t + b == t;
    } else {
      var b' := b[..|b| - 1];
      assert (t + b)[|t + b| - 1] == b[|b| - 1] && IsTrimmable(b[|b| - 1]);
      assert (t + b)[..|t + b| - 1] == t + b';
      TrimEndSkips(t, b');
    }
  }

  lemma {:induction false} TrimStartThenEndSkips(t: string, b: string)
    requires AllTrimmable(b)
    ensures TrimEnd(TrimStart(t + b)) == TrimEnd(TrimStart(t))
  {
    if t == [] {
      assert t + b == b;
      TrimStartSkips(b, []);
      assert b + [] == b;
    } else if IsTrimmable(t[0]) {
      assert (t + b)[1..] == t[1..] + b;
      TrimStartThenEndSkips(t[1..], b);
    } else {
      TrimEndSkips(t, b);
    }
  }

  /** Trimmable padding on either side does not change the trimmed string. */
  lemma TrimIgnoresPadding(a: string, s: string, b: string)
    requires AllTrimmable(a) && AllTrimmable(b)
    ensures Trim(a + s + b) == Trim(s)
  {
    assert a + s + b == a + (s + b);
    TrimStartSkips(a, s + b);
    TrimStartThenEndSkips(s, b);
  }

  /** Trimming twice is trimming once. */
  lemma TrimIdempotent(s: string)
    ensures Trim(Trim(s)) == Trim(s)
  {
    TrimSpec(s);
    var r := Trim(s);
    assert TrimStart(r) == r;
    assert TrimEnd(r) == r;
  }
}
