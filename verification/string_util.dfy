/** Emptiness checks of server/utils/StringUtil.js. */
module StringUtil {
  import opened Common

  /** The characters JavaScript's `String.prototype.trim` removes, which are also
      the characters the regular-expression class `\s` matches: the ECMAScript
      WhiteSpace and LineTerminator code points. */
  predicate IsWhitespace(c: char)
  {
    || c == '\t' || c == '\n' || c == '\U{000B}' || c == '\U{000C}' || c == '\r'
    || c == ' ' || c == '\U{00A0}' || c == '\U{1680}'
    || ('\U{2000}' <= c <= '\U{200A}')
    || c == '\U{2028}' || c == '\U{2029}' || c == '\U{202F}' || c == '\U{205F}'
    || c == '\U{3000}' || c == '\U{FEFF}'
  }

  /** Every character of `s` is whitespace (vacuously true of ""). */
  predicate AllWhitespace(s: string)
  {
    forall i | 0 <= i < |s| :: IsWhitespace(s[i])
  }

  /** Drops the leading whitespace of `s`. */
  function TrimStart(s: string): (r: string)
    ensures |r| <= |s|
  {
    if |s| > 0 && IsWhitespace(s[0]) then TrimStart(s[1..]) else s
  }

  /** Drops the trailing whitespace of `s`. */
  function TrimEnd(s: string): (r: string)
    ensures |r| <= |s|
  {
    if |s| > 0 && IsWhitespace(s[|s| - 1]) then TrimEnd(s[..|s| - 1]) else s
  }

  /** JavaScript's `str.trim()`: the text between the leading and the trailing
      whitespace. */
  function Trim(s: string): (r: string)
    ensures |r| <= |s|
  {
    TrimEnd(TrimStart(s))
  }

  /** `TrimStart` removes a whitespace prefix and stops at the first other
      character. */
  lemma {:induction false} TrimStartRemovesPrefix(s: string)
    ensures TrimStart(s) == s[|s| - |TrimStart(s)|..]
    ensures AllWhitespace(s[..|s| - |TrimStart(s)|])
    ensures TrimStart(s) == [] || !IsWhitespace(TrimStart(s)[0])
  {
    if |s| > 0 && IsWhitespace(s[0]) {
      var t := s[1..];
      TrimStartRemovesPrefix(t);
      var r := TrimStart(t);
      assert TrimStart(s) == r;
      assert r == s[|s| - |r|..];
      forall k | 0 <= k < |s| - |r| ensures IsWhitespace(s[k]) {
        if 0 < k {
          assert s[k] == t[..|t| - |r|][k - 1];
        }
      }
    }
  }

  /** `TrimEnd` removes a whitespace suffix and stops at the last other
      character. */
  lemma {:induction false} TrimEndRemovesSuffix(s: string)
    ensures TrimEnd(s) == s[..|TrimEnd(s)|]
    ensures AllWhitespace(s[|TrimEnd(s)|..])
    ensures TrimEnd(s) == [] || !IsWhitespace(TrimEnd(s)[|TrimEnd(s)| - 1])
  {
    if |s| > 0 && IsWhitespace(s[|s| - 1]) {
      var t := s[..|s| - 1];
      TrimEndRemovesSuffix(t);
      var r := TrimEnd(t);
      assert TrimEnd(s) == r;
      assert r == s[..|r|];
      forall k | |r| <= k < |s| ensures IsWhitespace(s[k]) {
        if k < |s| - 1 {
          assert s[k] == t[|r|..][k - |r|];
        }
      }
      assert AllWhitespace(s[|r|..]) by {
        forall k | 0 <= k < |s| - |r| ensures IsWhitespace(s[|r|..][k]) {
          assert s[|r|..][k] == s[|r| + k];
        }
      }
    }
  }

  /** `trim` keeps a middle slice of `s` that starts and ends with a
      non-whitespace character, after a whitespace prefix and before a
      whitespace suffix. */
  lemma TrimIsInfix(s: string)
    ensures exists i, j | 0 <= i <= j <= |s| :: Trim(s) == s[i..j]
                                            && AllWhitespace(s[..i]) && AllWhitespace(s[j..])
    ensures Trim(s) == [] || (!IsWhitespace(Trim(s)[0]) && !IsWhitespace(Trim(s)[|Trim(s)| - 1]))
  {
    var t := TrimStart(s);
    TrimStartRemovesPrefix(s);
    TrimEndRemovesSuffix(t);
    var r := TrimEnd(t);
    var i := |s| - |t|;
    assert r == s[i..i + |r|];
    assert s[i + |r|..] == t[|r|..];
  }

  /** `isEmptyOrNull(str)` is `!str || str.trim().length === 0`: an absent value,
      the empty string and a string made only of whitespace are empty, and a
      string with at least one other character is not. */
  function IsEmptyOrNull(s: Option<string>): (r: bool)
    ensures r <==> (s.None? || AllWhitespace(s.value))
  {
    match s
    case None => true
    case Some(str) =>
      TrimEmptyIffBlank(str);
      |Trim(str)| == 0
  }

  /** `isNotEmptyOrNull(str)` is the negation of `isEmptyOrNull(str)`: the value is
      present and holds a character that is not whitespace. */
  function IsNotEmptyOrNull(s: Option<string>): (r: bool)
    ensures r <==> !IsEmptyOrNull(s)
    ensures r <==> (s.Some? && exists i | 0 <= i < |s.value| :: !IsWhitespace(s.value[i]))
  {
    !IsEmptyOrNull(s)
  }

  /** Trimming yields "" exactly for the blank strings. */
  lemma TrimEmptyIffBlank(s: string)
    ensures Trim(s) == [] <==> AllWhitespace(s)
  {
    TrimIsInfix(s);
    var r := Trim(s);
    var i, j :| 0 <= i <= j <= |s| && r == s[i..j] && AllWhitespace(s[..i]) && AllWhitespace(s[j..]);
    if r == [] {
      forall k | 0 <= k < |s| ensures IsWhitespace(s[k]) {
        if k < i { assert s[k] == s[..i][k]; } else { assert s[k] == s[j..][k - j]; }
      }
    } else {
      assert s[i] == r[0];
    }
  }

  /** Padding a string with whitespace on either side does not change what
      `trim` returns. */
  lemma {:induction false} TrimIgnoresPadding(pre: string, s: string, post: string)
    requires AllWhitespace(pre) && AllWhitespace(post)
    ensures Trim(pre + s + post) == Trim(s)
  {
    TrimStartIgnoresPadding(pre, s + post);
    TrimStartRemovesPrefix(s);
    assert pre + s + post == pre + (s + post);
    var t := TrimStart(s + post);
    var u := TrimStart(s);
    if u == [] {
      // s is blank, so s + post is blank and both sides trim to ""
      assert AllWhitespace(s) by { assert s[..|s| - |u|] == s; }
      BlankTrimStart(s + post);
      BlankTrimStart(s);
      assert TrimStart(s + post) == [];
    } else {
      TrimStartOfConcat(s, post);
      assert t == u + post;
    }
    TrimEndIgnoresPadding(u, post);
  }

  /** Leading whitespace does not change `TrimStart`. */
  lemma {:induction false} TrimStartIgnoresPadding(pre: string, s: string)
    requires AllWhitespace(pre)
    ensures TrimStart(pre + s) == TrimStart(s)
  {
    if pre == [] {
      assert pre + s == s;
    } else {
      var ps := pre + s;
      var rest := pre[1..];
      assert IsWhitespace(ps[0]) by { assert ps[0] == pre[0]; }
      assert ps[1..] == rest + s;
      assert AllWhitespace(rest);
      TrimStartIgnoresPadding(rest, s);
    }
  }

  /** Trailing whitespace does not change `TrimEnd`. */
  lemma {:induction false} TrimEndIgnoresPadding(s: string, post: string)
    requires AllWhitespace(post)
    ensures TrimEnd(s + post) == TrimEnd(s)
  {
    if post != [] {
      var n := |post|;
      assert (s + post)[..|s + post| - 1] == s + post[..n - 1];
      TrimEndIgnoresPadding(s, post[..n - 1]);
    } else {
      assert s + post == s;
    }
  }

  /** A blank string trims to "" from the start. */
  lemma {:induction false} BlankTrimStart(s: string)
    requires AllWhitespace(s)
    ensures TrimStart(s) == []
  {
    if s != [] { BlankTrimStart(s[1..]); }
  }

  /** When `s` has a non-whitespace character, `TrimStart` stops inside `s`. */
  lemma {:induction false} TrimStartOfConcat(s: string, post: string)
    requires TrimStart(s) != []
    ensures TrimStart(s + post) == TrimStart(s) + post
  {
    if IsWhitespace(s[0]) {
      assert (s + post)[1..] == s[1..] + post;
      TrimStartOfConcat(s[1..], post);
    }
  }

  /** Whitespace padding never changes the verdict of `isEmptyOrNull`. */
  lemma IsEmptyOrNullIgnoresPadding(pre: string, s: string, post: string)
    requires AllWhitespace(pre) && AllWhitespace(post)
    ensures IsEmptyOrNull(Some(pre + s + post)) == IsEmptyOrNull(Some(s))
  {
    TrimIgnoresPadding(pre, s, post);
    TrimEmptyIffBlank(pre + s + post);
    TrimEmptyIffBlank(s);
  }
}
