/** `String.prototype.trim` as the resume gate and the scorer-reply parsing use it:
    it removes leading and trailing white space and line terminators. */
module Text {

  /** The characters `trim` removes: tab, vertical tab, form feed, space, no-break
      space, the byte-order mark, the other space separators of Unicode, and the four
      line terminators. */
  predicate IsWhiteSpace(c: char)
  {
    c in {'\t', '\n', '\U{000B}', '\U{000C}', '\r', ' ', '\U{00A0}', '\U{1680}',
          '\U{2000}', '\U{2001}', '\U{2002}', '\U{2003}', '\U{2004}', '\U{2005}',
          '\U{2006}', '\U{2007}', '\U{2008}', '\U{2009}', '\U{200A}', '\U{2028}',
          '\U{2029}', '\U{202F}', '\U{205F}', '\U{3000}', '\U{FEFF}'}
  }

  /** Every character is white space (the empty string included). */
  predicate IsBlank(s: string)
  {
    forall k :: 0 <= k < |s| ==> IsWhiteSpace(s[k])
  }

  /** `s` without its leading white space. */
  function TrimStart(s: string): (r: string)
    ensures |r| <= |s| && r == s[|s| - |r|..]
    ensures r == [] || !IsWhiteSpace(r[0])
    ensures forall k :: 0 <= k < |s| - |r| ==> IsWhiteSpace(s[k])
  {
    if s != [] && IsWhiteSpace(s[0]) then
      var r := TrimStart(s[1..]);
      assert s[1..][|s| - 1 - |r|..] == s[|s| - |r|..];
      r
    else s
  }

  /** `s` without its trailing white space. */
  function TrimEnd(s: string): (r: string)
    ensures |r| <= |s| && r == s[..|r|]
    ensures r == [] || !IsWhiteSpace(r[|r| - 1])
    ensures forall k :: |r| <= k < |s| ==> IsWhiteSpace(s[k])
  {
    if s != [] && IsWhiteSpace(s[|s| - 1]) then
      var r := TrimEnd(s[..|s| - 1]);
      assert s[..|s| - 1][..|r|] == s[..|r|];
      r
    else s
  }

  /** `s` without its leading and trailing white space: a slice of `s` whose cut-off
      ends are blank and which neither starts nor ends with white space. */
  function Trim(s: string): (r: string)
    ensures r == [] || (!IsWhiteSpace(r[0]) && !IsWhiteSpace(r[|r| - 1]))
    ensures exists i, j :: 0 <= i <= j <= |s| && r == s[i..j] && IsBlank(s[..i]) && IsBlank(s[j..])
  {
    var front := TrimStart(s);
    var back := TrimEnd(front);
    Cuts(s, front, back);
    back
  }

  /** Cutting a blank prefix off `s` to get `front`, then a blank suffix off `front` to
      get `back`, leaves a slice of `s` between two blank ends. */
  lemma Cuts(s: string, front: string, back: string)
    requires |front| <= |s| && front == s[|s| - |front|..]
    requires forall k :: 0 <= k < |s| - |front| ==> IsWhiteSpace(s[k])
    requires |back| <= |front| && back == front[..|back|]
    requires forall k :: |back| <= k < |front| ==> IsWhiteSpace(front[k])
    ensures back == [] || back[0] == front[0]
    ensures exists i, j :: 0 <= i <= j <= |s| && back == s[i..j] && IsBlank(s[..i]) && IsBlank(s[j..])
  {
    var i := |s| - |front|;
    var j := i + |back|;
    forall k | j <= k < |s| ensures IsWhiteSpace(s[k]) {
      assert s[k] == front[k - i];
    }
    assert back == s[i..j];
    assert IsBlank(s[..i]) && IsBlank(s[j..]);
  }

  /** Trimming leaves nothing exactly when the string is blank. */
  lemma TrimEmpty(s: string)
    ensures Trim(s) == [] <==> IsBlank(s)
  {
    TrimStartBlank(s);
    TrimEndBlank(TrimStart(s));
  }

  lemma TrimStartBlank(s: string)
    ensures TrimStart(s) == [] <==> IsBlank(s)
  {
    var front := TrimStart(s);
    if front != [] {
      assert s[|s| - |front|] == front[0];
    }
  }

  lemma TrimEndBlank(s: string)
    ensures TrimEnd(s) == [] <==> IsBlank(s)
  {
    var back := TrimEnd(s);
    if back != [] {
      assert s[|back| - 1] == back[|back| - 1];
    }
  }
}
