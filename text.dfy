/** The JavaScript string operations main.js relies on: `endsWith`,
    `includes`, `trim` and `toLowerCase`. Strings are sequences of code points. */
module Text {

  /** `s.endsWith(suffix)` */
  predicate EndsWith(s: string, suffix: string)
  {
    |suffix| <= |s| && s[|s| - |suffix|..] == suffix
  }

  /** `q` occurs in `text` starting at position `i`. */
  predicate OccursAt(text: string, q: string, i: int)
  {
    0 <= i <= |text| - |q| && text[i..i + |q|] == q
  }

  /** `text.includes(q)`, scanning the start positions from left to right. */
  function Contains(text: string, q: string): bool
    decreases |text|
  {
    if |text| < |q| then false
    else if text[..|q|] == q then true
    else Contains(text[1..], q)
  }

  /** `includes` holds exactly when `q` occurs at some position of `text`. */
  lemma {:induction false} ContainsIff(text: string, q: string)
    ensures Contains(text, q) <==> exists i :: OccursAt(text, q, i)
    decreases |text|
  {
    if |text| < |q| {
    } else if text[..|q|] == q {
      assert OccursAt(text, q, 0);
    } else {
      ContainsIff(text[1..], q);
      if Contains(text, q) {
        var i :| OccursAt(text[1..], q, i);
        assert text[1..][i..i + |q|] == text[i + 1..i + 1 + |q|];
        assert OccursAt(text, q, i + 1);
      }
      if exists i :: OccursAt(text, q, i) {
        var i :| OccursAt(text, q, i);
        assert i != 0;
        assert text[1..][i - 1..i - 1 + |q|] == text[i..i + |q|];
        assert OccursAt(text[1..], q, i - 1);
      }
    }
  }

  /** The empty string occurs in every string. */
  lemma ContainsEmpty(text: string)
    ensures Contains(text, "")
  {
    assert text[..0] == "";
  }

  /** ECMAScript WhiteSpace and LineTerminator code points: what `trim` strips. */
  predicate IsWhitespace(c: char)
  {
    c == '\t' || c == '\n' || c == '\U{000B}' || c == '\U{000C}' || c == '\r' || c == ' '
    || c == '\U{00A0}' || c == '\U{1680}' || ('\U{2000}' <= c <= '\U{200A}')
    || c == '\U{2028}' || c == '\U{2029}' || c == '\U{202F}' || c == '\U{205F}'
    || c == '\U{3000}' || c == '\U{FEFF}'
  }

  /** Drops the leading white space: the rest of `s` from its first other character. */
  function TrimStart(s: string): (r: string)
    ensures |r| <= |s| && r == s[|s| - |r|..]
    ensures forall k :: 0 <= k < |s| - |r| ==> IsWhitespace(s[k])
    ensures r == [] || !IsWhitespace(r[0])
    decreases |s|
  {
    if s != [] && IsWhitespace(s[0]) then TrimStart(s[1..]) else s
  }

  /** Drops the trailing white space: `s` up to and including its last other character. */
  function TrimEnd(s: string): (r: string)
    ensures |r| <= |s| && r == s[..|r|]
    ensures forall k :: |r| <= k < |s| ==> IsWhitespace(s[k])
    ensures r == [] || !IsWhitespace(r[|r| - 1])
    decreases |s|
  {
    if s != [] && IsWhitespace(s[|s| - 1]) then TrimEnd(s[..|s| - 1]) else s
  }

  /** `r` is `s` with the white space before position `i` and after
      `i + |r|` cut away. */
  predicate CutAt(s: string, r: string, i: int)
  {
    && 0 <= i <= |s| - |r| && r == s[i..i + |r|]
    && (forall k :: 0 <= k < i ==> IsWhitespace(s[k]))
    && (forall k :: i + |r| <= k < |s| ==> IsWhitespace(s[k]))
  }

  /** Cutting white space from the front of `s` and then from the back of
      what is left cuts both ends of `s`. */
  lemma CutBothEnds(s: string, t: string, r: string)
    requires |t| <= |s| && t == s[|s| - |t|..]
    requires forall k :: 0 <= k < |s| - |t| ==> IsWhitespace(s[k])
    requires |r| <= |t| && r == t[..|r|]
    requires forall k :: |r| <= k < |t| ==> IsWhitespace(t[k])
    requires r == [] || !IsWhitespace(r[0])
    ensures CutAt(s, r, |s| - |t|)
    ensures r == [] <==> forall k :: 0 <= k < |s| ==> IsWhitespace(s[k])
  {
    var i := |s| - |t|;
    assert r == s[i..i + |r|];
    forall k | i + |r| <= k < |s|
      ensures IsWhitespace(s[k])
    {
      assert s[k] == t[k - i];
    }
    if r != [] {
      assert s[i] == r[0];
    }
  }

  /** `s.trim()` */
  function Trim(s: string): (r: string)
    ensures r == [] <==> forall k :: 0 <= k < |s| ==> IsWhitespace(s[k])
    ensures r == [] || (!IsWhitespace(r[0]) && !IsWhitespace(r[|r| - 1]))
    ensures exists i :: CutAt(s, r, i)
  {
    var t := TrimStart(s);
    var r := TrimEnd(t);
    assert r != [] ==> r[0] == t[0];
    CutBothEnds(s, t, r);
    assert r != [] ==> r[|r| - 1] == s[|s| - |t| + |r| - 1];
    r
  }

  /** Case mapping of one code point, for the ASCII letters. */
  function LowerChar(c: char): char
  {
    if 'A' <= c <= 'Z' then (c as int + 32) as char else c
  }

  /** `s.toLowerCase()` over ASCII. */
  function Lower(s: string): (r: string)
    ensures |r| == |s|
  {
    seq(|s|, i requires 0 <= i < |s| => LowerChar(s[i]))
  }

  /** Lower-casing keeps white space and everything else apart. */
  lemma LowerCharWhitespace(c: char)
    ensures IsWhitespace(LowerChar(c)) <==> IsWhitespace(c)
  {
  }

  lemma {:induction false} TrimStartLower(s: string)
    ensures TrimStart(Lower(s)) == Lower(TrimStart(s))
    decreases |s|
  {
    if s != [] {
      LowerCharWhitespace(s[0]);
      assert Lower(s)[1..] == Lower(s[1..]);
      if IsWhitespace(s[0]) {
        TrimStartLower(s[1..]);
      }
    }
  }

  lemma {:induction false} TrimEndLower(s: string)
    ensures TrimEnd(Lower(s)) == Lower(TrimEnd(s))
    decreases |s|
  {
    if s != [] {
      LowerCharWhitespace(s[|s| - 1]);
      assert Lower(s)[..|s| - 1] == Lower(s[..|s| - 1]);
      if IsWhitespace(s[|s| - 1]) {
        TrimEndLower(s[..|s| - 1]);
      }
    }
  }

  /** Trimming and lower-casing commute, and lower-casing twice changes nothing:
      `s.toLowerCase().trim().toLowerCase() == s.trim().toLowerCase()`. */
  lemma TrimLowerCommute(s: string)
    ensures Trim(Lower(s)) == Lower(Trim(s))
    ensures Lower(Lower(Trim(s))) == Lower(Trim(s))
  {
    calc {
      Trim(Lower(s));
      TrimEnd(TrimStart(Lower(s)));
      { TrimStartLower(s); }
      TrimEnd(Lower(TrimStart(s)));
      { TrimEndLower(TrimStart(s)); }
      Lower(TrimEnd(TrimStart(s)));
      Lower(Trim(s));
    }
    LowerIdempotent(Trim(s));
  }

  lemma LowerIdempotent(s: string)
    ensures Lower(Lower(s)) == Lower(s)
  {
    assert forall i :: 0 <= i < |s| ==> Lower(Lower(s))[i] == Lower(s)[i];
  }
}
