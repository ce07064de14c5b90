/**
 * The part of JavaScript's string library the components rely on:
 * `String.prototype.trim`, and the truthiness test `if (task.trim())`.
 *
 * ECMAScript's trim removes, from both ends, every code point that the
 * language calls WhiteSpace (TAB, VT, FF, ZWNBSP and every Unicode
 * "Space_Separator") or LineTerminator (LF, CR, LS, PS).
 */
module JsText {
  import opened Wrappers

  /** The WhiteSpace and LineTerminator code points of ECMAScript. */
  predicate IsWhitespace(c: char) {
    c in {
      '\t', '\n', '\U{B}', '\U{C}', '\r', ' ', '\U{A0}', '\U{1680}',
      '\U{2000}', '\U{2001}', '\U{2002}', '\U{2003}', '\U{2004}', '\U{2005}',
      '\U{2006}', '\U{2007}', '\U{2008}', '\U{2009}', '\U{200A}',
      '\U{2028}', '\U{2029}', '\U{202F}', '\U{205F}', '\U{3000}', '\U{FEFF}'
    }
  }

  predicate AllWhitespace(s: string) {
    forall i | 0 <= i < |s| :: IsWhitespace(s[i])
  }

  /** Length of the longest whitespace prefix of `s`. */
  function LeadingWhitespace(s: string): (n: nat)
    ensures n <= |s|
    ensures AllWhitespace(s[..n])
    ensures n < |s| ==> !IsWhitespace(s[n])
  {
    if s == [] || !IsWhitespace(s[0]) then 0
    else
      var k := LeadingWhitespace(s[1..]);
      assert s[1..][..k] == s[1..k + 1];
      1 + k
  }

  /** Where the longest whitespace suffix of `s` starts. */
  function TrailingStart(s: string): (m: nat)
    ensures m <= |s|
    ensures AllWhitespace(s[m..])
    ensures 0 < m ==> !IsWhitespace(s[m - 1])
  {
    if s == [] || !IsWhitespace(s[|s| - 1]) then |s|
    else
      var k := TrailingStart(s[..|s| - 1]);
      assert s[..|s| - 1][k..] + [s[|s| - 1]] == s[k..];
      k
  }

  /** `s.trim()`: `s` without its leading and trailing whitespace. */
  function Trim(s: string): (r: string)
    ensures |r| <= |s|
    ensures r != [] ==> !IsWhitespace(r[0]) && !IsWhitespace(r[|r| - 1])
  {
    var t := s[LeadingWhitespace(s)..];
    t[..TrailingStart(t)]
  }

  /** The JavaScript condition `!s.trim()`: the trimmed string is falsy. */
  predicate IsBlank(s: string) {
    Trim(s) == ""
  }

  /** The whitespace prefix is determined by its two defining facts. */
  lemma LeadingWhitespaceUnique(s: string, n: nat)
    requires n <= |s| && AllWhitespace(s[..n])
    requires n < |s| ==> !IsWhitespace(s[n])
    ensures LeadingWhitespace(s) == n
  {
    var k := LeadingWhitespace(s);
    assert forall i | 0 <= i < n :: IsWhitespace(s[i]) by {
      forall i | 0 <= i < n ensures IsWhitespace(s[i]) { assert s[..n][i] == s[i]; }
    }
    assert forall i | 0 <= i < k :: IsWhitespace(s[i]) by {
      forall i | 0 <= i < k ensures IsWhitespace(s[i]) { assert s[..k][i] == s[i]; }
    }
  }

  /** The whitespace suffix is determined by its two defining facts. */
  lemma TrailingStartUnique(s: string, m: nat)
    requires m <= |s| && AllWhitespace(s[m..])
    requires 0 < m ==> !IsWhitespace(s[m - 1])
    ensures TrailingStart(s) == m
  {
    var k := TrailingStart(s);
    assert forall i | m <= i < |s| :: IsWhitespace(s[i]) by {
      forall i | m <= i < |s| ensures IsWhitespace(s[i]) { assert s[m..][i - m] == s[i]; }
    }
    assert forall i | k <= i < |s| :: IsWhitespace(s[i]) by {
      forall i | k <= i < |s| ensures IsWhitespace(s[i]) { assert s[k..][i - k] == s[i]; }
    }
  }

  lemma SplitAt(s: string, i: nat, j: nat)
    requires i <= j <= |s|
    ensures s == s[..i] + s[i..j] + s[j..]
  {
    assert s[..j] == s[..i] + s[i..j];
    assert s == s[..j] + s[j..];
  }

  /** `Trim` cuts `s` into a whitespace prefix, the result, and a whitespace suffix. */
  lemma TrimSplits(s: string)
    ensures LeadingWhitespace(s) + |Trim(s)| <= |s|
    ensures s == s[..LeadingWhitespace(s)] + Trim(s) + s[LeadingWhitespace(s) + |Trim(s)|..]
    ensures AllWhitespace(s[..LeadingWhitespace(s)])
    ensures AllWhitespace(s[LeadingWhitespace(s) + |Trim(s)|..])
  {
    var k := LeadingWhitespace(s);
    var t := s[k..];
    var m := TrailingStart(t);
    assert Trim(s) == s[k..k + m] by {
      assert Trim(s) == t[..m];
    }
    assert t[m..] == s[k + m..];
    SplitAt(s, k, k + m);
  }

  /**
   * Trim is characterised by its result alone: whatever whitespace is around a
   * string that neither starts nor ends with whitespace is exactly what trim removes.
   */
  lemma TrimOfPadded(pre: string, t: string, post: string)
    requires AllWhitespace(pre) && AllWhitespace(post)
    requires t != [] ==> !IsWhitespace(t[0]) && !IsWhitespace(t[|t| - 1])
    ensures Trim(pre + t + post) == t
  {
    var s := pre + t + post;
    if t == [] {
      assert s == pre + post;
      assert AllWhitespace(s) by {
        forall i | 0 <= i < |s| ensures IsWhitespace(s[i]) {
          if i < |pre| { assert s[i] == pre[i]; } else { assert s[i] == post[i - |pre|]; }
        }
      }
      assert s[..|s|] == s;
      LeadingWhitespaceUnique(s, |s|);
    } else {
      assert s[..|pre|] == pre;
      assert s[|pre|] == t[0];
      LeadingWhitespaceUnique(s, |pre|);
      var u := s[|pre|..];
      assert u == t + post;
      assert u[|t|..] == post;
      assert u[|t| - 1] == t[|t| - 1];
      TrailingStartUnique(u, |t|);
      assert u[..|t|] == t;
    }
  }

  /** Trimming twice is trimming once. */
  lemma TrimIdempotent(s: string)
    ensures Trim(Trim(s)) == Trim(s)
  {
    var t := Trim(s);
    assert t == [] + t + [];
    TrimOfPadded([], t, []);
  }

  /** A string is blank exactly when every character of it is whitespace. */
  lemma BlankIffAllWhitespace(s: string)
    ensures IsBlank(s) <==> AllWhitespace(s)
  {
    if AllWhitespace(s) {
      assert s == s + [] + [];
      TrimOfPadded(s, [], []);
    }
    if IsBlank(s) {
      var k := LeadingWhitespace(s);
      var t := s[k..];
      assert TrailingStart(t) == 0;
      assert t[0..] == t;
      assert k == |s|;
      assert s[..k] == s;
    }
  }

  /**
   * The text a handler submits for input `s` when `s.trim()` is truthy: absent
   * for blank input, otherwise the trimmed text, which is then non-empty and
   * already trimmed.
   */
  function SubmittedText(s: string): (r: Option<string>)
    ensures r.None? <==> IsBlank(s)
    ensures r.Some? ==> r.value != [] && r.value == Trim(s) && Trim(r.value) == r.value
  {
    TrimIdempotent(s);
    if IsBlank(s) then None else Some(Trim(s))
  }
}
