/** String helpers the services rely on: the case-insensitive substring match
    of ILike (on MySQL UPPER(..) LIKE UPPER(..)) and LOWER(..) LIKE LOWER(..)
    with a `%x%` pattern, and
    JavaScript's String.prototype.trim. */
module Text {

  /** Lower-case folding of one character: ASCII letters and the Latin-1
      upper-case letters (U+00C0..U+00DE except the multiplication sign). */
  function Fold(c: char): (d: char)
    ensures ('A' <= c <= 'Z') ==> d as int == c as int + 32
    ensures !('A' <= c <= 'Z') && !('\U{00C0}' <= c <= '\U{00DE}' && c != '\U{00D7}') ==> d == c
  {
    if 'A' <= c <= 'Z' then (c as int + 32) as char
    else if '\U{00C0}' <= c <= '\U{00DE}' && c != '\U{00D7}' then (c as int + 32) as char
    else c
  }

  function FoldString(s: string): (r: string)
    ensures |r| == |s|
    ensures forall i :: 0 <= i < |s| ==> r[i] == Fold(s[i])
  {
    if s == [] then [] else [Fold(s[0])] + FoldString(s[1..])
  }

  /** `p` occurs as a contiguous block of `s`, starting at its first
      character or later. */
  predicate IsSubstring(p: string, s: string)
    decreases |s|
  {
    p <= s || (|s| > 0 && IsSubstring(p, s[1..]))
  }

  /** `p` sits in `s` at offset `i`. */
  predicate OccursAt(p: string, s: string, i: int)
  {
    0 <= i <= |s| - |p| && s[i..i + |p|] == p
  }

  /** The substring test agrees with "there is an offset at which `p` sits in `s`". */
  lemma {:induction false} IsSubstringAt(p: string, s: string)
    ensures IsSubstring(p, s) <==> exists i :: OccursAt(p, s, i)
    decreases |s|
  {
    if p <= s {
      assert OccursAt(p, s, 0);
    } else if |s| == 0 {
    } else {
      IsSubstringAt(p, s[1..]);
      if IsSubstring(p, s[1..]) {
        var i :| OccursAt(p, s[1..], i);
        assert s[i + 1..i + 1 + |p|] == s[1..][i..i + |p|];
        assert OccursAt(p, s, i + 1);
      }
      if exists i :: OccursAt(p, s, i) {
        var i :| OccursAt(p, s, i);
        assert i != 0 by { assert s[0..|p|] == p ==> p <= s; }
        assert s[1..][i - 1..i - 1 + |p|] == s[i..i + |p|];
        assert OccursAt(p, s[1..], i - 1);
      }
    }
  }

  /** The empty pattern `%%` matches every value. */
  lemma {:induction false} EmptyIsSubstring(s: string)
    ensures IsSubstring("", s)
  {
  }

  /** `LOWER(field) LIKE LOWER('%' + sub + '%')`, and equally `ILike`'s
      `UPPER` form: both sides case-folded, with `%` and `_` in `sub` taken
      as ordinary characters. */
  predicate ContainsIgnoreCase(field: string, sub: string): (r: bool)
    ensures r <==> exists i :: OccursAt(FoldString(sub), FoldString(field), i)
  {
    var p, s := FoldString(sub), FoldString(field);
    IsSubstringAt(p, s);
    assert IsSubstring(p, s) <==> exists i :: OccursAt(FoldString(sub), FoldString(field), i);
    IsSubstring(p, s)
  }

  /** Folding an already folded character changes nothing. */
  lemma FoldIdempotent(c: char)
    ensures Fold(Fold(c)) == Fold(c)
  {
  }

  lemma {:induction false} FoldStringIdempotent(s: string)
    ensures FoldString(FoldString(s)) == FoldString(s)
  {
    forall i | 0 <= i < |s| ensures FoldString(FoldString(s))[i] == FoldString(s)[i] {
      FoldIdempotent(s[i]);
    }
  }

  /** The match ignores the case of both the field and the searched text. */
  lemma CaseOfArgumentsIrrelevant(field: string, sub: string)
    ensures ContainsIgnoreCase(FoldString(field), sub) == ContainsIgnoreCase(field, sub)
    ensures ContainsIgnoreCase(field, FoldString(sub)) == ContainsIgnoreCase(field, sub)
  {
    FoldStringIdempotent(field);
    FoldStringIdempotent(sub);
  }

  /** The characters String.prototype.trim removes: ECMAScript WhiteSpace
      (TAB, VT, FF, SPACE, NBSP, ZWNBSP and the Zs category) and
      LineTerminator (LF, CR, LS, PS). */
  predicate IsWhitespace(c: char)
  {
    c == '\t' || c == '\n' || c == '\U{000B}' || c == '\U{000C}' || c == '\r' || c == ' '
    || c == '\U{00A0}' || c == '\U{1680}' || ('\U{2000}' <= c <= '\U{200A}')
    || c == '\U{2028}' || c == '\U{2029}' || c == '\U{202F}' || c == '\U{205F}'
    || c == '\U{3000}' || c == '\U{FEFF}'
  }

  /** `IsWhitespace` accepts exactly the code points of the ECMAScript
      WhiteSpace and LineTerminator productions, listed one by one. */
  lemma EspacosDoTrim(c: char)
    ensures IsWhitespace(c) <==> c in {'\U{0009}', '\U{000A}', '\U{000B}', '\U{000C}', '\U{000D}', '\U{0020}',
       '\U{00A0}', '\U{1680}', '\U{2000}', '\U{2001}', '\U{2002}', '\U{2003}',
       '\U{2004}', '\U{2005}', '\U{2006}', '\U{2007}', '\U{2008}', '\U{2009}',
       '\U{200A}', '\U{2028}', '\U{2029}', '\U{202F}', '\U{205F}', '\U{3000}',
       '\U{FEFF}'}
  {
  }

  predicate AllWhitespace(s: string)
  {
    forall i :: 0 <= i < |s| ==> IsWhitespace(s[i])
  }

  /** `s` with its leading whitespace removed. */
  function TrimStart(s: string): (r: string)
    ensures |r| <= |s| && r == s[|s| - |r|..]
    ensures forall k | 0 <= k < |s| - |r| :: IsWhitespace(s[k])
    ensures r != [] ==> !IsWhitespace(r[0])
  {
    if s != [] && IsWhitespace(s[0]) then
      var r := TrimStart(s[1..]);
      assert forall k | 0 < k < |s| :: s[k] == s[1..][k - 1];
      r
    else s
  }

  /** `s` with its trailing whitespace removed. */
  function TrimEnd(s: string): (r: string)
    ensures |r| <= |s| && r == s[..|r|]
    ensures forall k | |r| <= k < |s| :: IsWhitespace(s[k])
    ensures r != [] ==> !IsWhitespace(r[|r| - 1])
  {
    if s != [] && IsWhitespace(s[|s| - 1]) then
      var r := TrimEnd(s[..|s| - 1]);
      assert forall k | 0 <= k < |s| - 1 :: s[k] == s[..|s| - 1][k];
      r
    else s
  }

  /** String.prototype.trim: a string that neither starts nor ends with
      whitespace, obtained by removing whitespace only. */
  function Trim(s: string): (r: string)
    ensures r != [] ==> !IsWhitespace(r[0]) && !IsWhitespace(r[|r| - 1])
  {
    var t := TrimStart(s);
    var u := TrimEnd(t);
    assert u != [] ==> u[0] == t[0];
    u
  }

  /** Whitespace at the end of the suffix `s[i..]` is whitespace at the end
      of `s`. */
  lemma FimEmBranco(s: string, i: int, n: int)
    requires 0 <= i <= |s| && 0 <= n <= |s| - i
    requires forall k | n <= k < |s| - i :: IsWhitespace(s[i..][k])
    ensures forall k | i + n <= k < |s| :: IsWhitespace(s[k])
  {
    forall k | i + n <= k < |s| ensures IsWhitespace(s[k]) {
      assert s[i..][k - i] == s[k];
    }
  }

  /** Trimming keeps a contiguous block of `s` and removes only whitespace
      on either side of it. */
  lemma TrimRemovesOnlyWhitespace(s: string)
    ensures exists i, j :: && 0 <= i <= j <= |s| && Trim(s) == s[i..j]
                           && (forall k | 0 <= k < i :: IsWhitespace(s[k]))
                           && (forall k | j <= k < |s| :: IsWhitespace(s[k]))
  {
    var t := TrimStart(s);
    var i := |s| - |t|;
    var u := TrimEnd(t);
    FimEmBranco(s, i, |u|);
    assert Trim(s) == s[i..i + |u|];
  }

  /** Trimming yields the empty string exactly when the input is all whitespace. */
  lemma TrimEmptyIffBlank(s: string)
    ensures Trim(s) == "" <==> AllWhitespace(s)
  {
    TrimRemovesOnlyWhitespace(s);
    var i, j :| && 0 <= i <= j <= |s| && Trim(s) == s[i..j]
                && (forall k | 0 <= k < i :: IsWhitespace(s[k]))
                && (forall k | j <= k < |s| :: IsWhitespace(s[k]));
    if Trim(s) != "" {
      assert Trim(s)[0] == s[i];
    }
  }

  /** A string with no leading or trailing whitespace is its own trim. */
  lemma TrimOfTrimmed(s: string)
    requires s != [] ==> !IsWhitespace(s[0]) && !IsWhitespace(s[|s| - 1])
    ensures Trim(s) == s
  {
    if s != [] {
      assert TrimStart(s) == s;
      assert TrimEnd(s) == s;
    }
  }

  /** Trimming twice is trimming once. */
  lemma TrimIdempotent(s: string)
    ensures Trim(Trim(s)) == Trim(s)
  {
    TrimOfTrimmed(Trim(s));
  }
}
