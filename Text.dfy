/**
 * Character classes and string operations of Python and JavaScript that the
 * modelled code relies on: Python's str.strip(), JavaScript's regular
 * expression class \s, String.prototype.toLowerCase() and includes().
 */
module Text {

  /** Python's str.isspace() for one character: the characters str.strip() removes. */
  predicate IsPySpace(c: char)
  {
    || ('\t' <= c <= '\r')                  // \t \n \x0b \x0c \r
    || ('\U{1C}' <= c <= '\U{1F}')          // file, group, record and unit separators
    || c == ' ' || c == '\U{85}' || c == '\U{A0}' || c == '\U{1680}'
    || ('\U{2000}' <= c <= '\U{200A}')
    || c == '\U{2028}' || c == '\U{2029}' || c == '\U{202F}' || c == '\U{205F}' || c == '\U{3000}'
  }

  /** ECMAScript's \s: the WhiteSpace and LineTerminator characters. */
  predicate IsJsSpace(c: char)
  {
    || ('\t' <= c <= '\r')
    || c == ' ' || c == '\U{A0}' || c == '\U{1680}'
    || ('\U{2000}' <= c <= '\U{200A}')
    || c == '\U{2028}' || c == '\U{2029}' || c == '\U{202F}' || c == '\U{205F}' || c == '\U{3000}'
    || c == '\U{FEFF}'
  }

  /** Removes the leading characters of s for which Python's isspace() holds. */
  function TrimStart(s: string): string
  {
    if s != [] && IsPySpace(s[0]) then TrimStart(s[1..]) else s
  }

  /** Removes the trailing characters of s for which Python's isspace() holds. */
  function TrimEnd(s: string): string
  {
    if s != [] && IsPySpace(s[|s| - 1]) then TrimEnd(s[..|s| - 1]) else s
  }

  lemma {:induction false} TrimStartIsSuffix(s: string)
    ensures |TrimStart(s)| <= |s| && TrimStart(s) == s[|s| - |TrimStart(s)|..]
    ensures TrimStart(s) == [] || !IsPySpace(TrimStart(s)[0])
    ensures forall k :: 0 <= k < |s| - |TrimStart(s)| ==> IsPySpace(s[k])
  {
    if s != [] && IsPySpace(s[0]) {
      var t := s[1..];
      TrimStartIsSuffix(t);
      assert TrimStart(s) == TrimStart(t);
      forall k | 0 <= k < |s| - |TrimStart(s)|
        ensures IsPySpace(s[k])
      {
        if k > 0 {
          assert s[k] == t[k - 1];
        }
      }
    }
  }

  lemma {:induction false} TrimEndIsPrefix(s: string)
    ensures |TrimEnd(s)| <= |s| && TrimEnd(s) == s[..|TrimEnd(s)|]
    ensures TrimEnd(s) == [] || !IsPySpace(TrimEnd(s)[|TrimEnd(s)| - 1])
    ensures forall k :: |TrimEnd(s)| <= k < |s| ==> IsPySpace(s[k])
  {
    if s != [] && IsPySpace(s[|s| - 1]) {
      var t := s[..|s| - 1];
      TrimEndIsPrefix(t);
      assert TrimEnd(s) == TrimEnd(t);
      forall k | |TrimEnd(s)| <= k < |s|
        ensures IsPySpace(s[k])
      {
        if k < |t| {
          assert s[k] == t[k];
        }
      }
    }
  }

  predicate IsStripped(s: string)
  {
    s == [] || (!IsPySpace(s[0]) && !IsPySpace(s[|s| - 1]))
  }

  /** Python's s.strip() with no argument. */
  function Strip(s: string): (r: string)
    ensures |r| <= |s| && IsStripped(r)
  {
    TrimStartIsSuffix(s);
    TrimEndIsPrefix(TrimStart(s));
    var r := TrimEnd(TrimStart(s));
    assert r != [] ==> r[0] == TrimStart(s)[0];
    r
  }

  /**
   * strip() removes exactly the surrounding whitespace: its result is a slice
   * s[i..j] with only whitespace before i and after j.
   */
  lemma StripRemovesOuterWhitespace(s: string)
    ensures exists i, j ::
              && 0 <= i <= j <= |s| && Strip(s) == s[i..j]
              && (forall k :: 0 <= k < i ==> IsPySpace(s[k]))
              && (forall k :: j <= k < |s| ==> IsPySpace(s[k]))
  {
    TrimStartIsSuffix(s);
    var t := TrimStart(s);
    TrimEndIsPrefix(t);
    var r := TrimEnd(t);
    var i := |s| - |t|;
    var j := i + |r|;
    assert r == s[i..j];
    assert forall k :: j <= k < |s| ==> s[k] == t[k - i];
  }

  /** A string without surrounding whitespace is its own strip: strip() is idempotent. */
  lemma {:induction false} StripStrippedIsIdentity(s: string)
    requires IsStripped(s)
    ensures Strip(s) == s
  {
    assert TrimStart(s) == s;
    assert TrimEnd(s) == s;
  }

  /** JavaScript's toLowerCase() on one character, for the ASCII letters. */
  function LowerChar(c: char): char
  {
    if 'A' <= c <= 'Z' then (c as int - 'A' as int + 'a' as int) as char else c
  }

  function Lower(s: string): (r: string)
    ensures |r| == |s|
    ensures forall i :: 0 <= i < |s| ==> r[i] == LowerChar(s[i])
  {
    seq(|s|, i requires 0 <= i < |s| => LowerChar(s[i]))
  }

  predicate IsPrefix(p: string, s: string)
  {
    |p| <= |s| && s[..|p|] == p
  }

  /** JavaScript's s.includes(sub). */
  predicate Contains(s: string, sub: string)
  {
    IsPrefix(sub, s) || (s != [] && Contains(s[1..], sub))
  }

  /** sub occurs in s starting at index i. */
  predicate OccursAt(s: string, sub: string, i: int)
  {
    0 <= i <= |s| - |sub| && s[i..i + |sub|] == sub
  }

  /** s.includes(sub) exactly when sub occurs in s at some index. */
  lemma {:induction false} ContainsIffOccurs(s: string, sub: string)
    ensures Contains(s, sub) <==> exists i :: OccursAt(s, sub, i)
  {
    if s == [] {
      if Contains(s, sub) {
        assert OccursAt(s, sub, 0);
      }
    } else {
      var t := s[1..];
      ContainsIffOccurs(t, sub);
      if IsPrefix(sub, s) {
        assert OccursAt(s, sub, 0);
      } else if Contains(t, sub) {
        var i :| OccursAt(t, sub, i);
        assert s[i + 1..i + 1 + |sub|] == t[i..i + |sub|];
        assert OccursAt(s, sub, i + 1);
      }
      if exists i :: OccursAt(s, sub, i) {
        var i :| OccursAt(s, sub, i);
        if i > 0 {
          assert t[i - 1..i - 1 + |sub|] == s[i..i + |sub|];
          assert OccursAt(t, sub, i - 1);
        }
      }
    }
  }
}
