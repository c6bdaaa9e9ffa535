/**
  Character classes and trimming shared by the preprocessing stages.

  .NET's Char.IsWhiteSpace and the regular-expression class \s accept the same
  characters: the Unicode space, line and paragraph separators (category Z) plus
  U+0009 to U+000D and U+0085. IsWhiteSpace lists them explicitly.
*/
module Text {

  predicate IsWhiteSpace(c: char) {
    c == ' ' || ('\t' <= c <= '\r') || c == '\U{0085}' || c == '\U{00A0}' || c == '\U{1680}'
    || ('\U{2000}' <= c <= '\U{200A}') || c == '\U{2028}' || c == '\U{2029}' || c == '\U{202F}'
    || c == '\U{205F}' || c == '\U{3000}'
  }

  predicate AllWhiteSpace(s: string) {
    forall k :: 0 <= k < |s| ==> IsWhiteSpace(s[k])
  }

  /** The end of the run of white space that starts at i. */
  function WhiteRunEnd(s: string, i: nat): (r: nat)
    requires i <= |s|
    ensures i <= r <= |s|
    ensures forall k :: i <= k < r ==> IsWhiteSpace(s[k])
    ensures r < |s| ==> !IsWhiteSpace(s[r])
    decreases |s| - i
  {
    if i < |s| && IsWhiteSpace(s[i]) then WhiteRunEnd(s, i + 1) else i
  }

  /** The start of the run of white space that ends at j, looking no further left than lo. */
  function WhiteRunStart(s: string, lo: nat, j: nat): (r: nat)
    requires lo <= j <= |s|
    ensures lo <= r <= j
    ensures forall k :: r <= k < j ==> IsWhiteSpace(s[k])
    ensures r > lo ==> !IsWhiteSpace(s[r - 1])
    decreases j
  {
    if j > lo && IsWhiteSpace(s[j - 1]) then WhiteRunStart(s, lo, j - 1) else j
  }

  /** String.Trim(): the infix of s between its leading and its trailing white space. */
  function Trim(s: string): (r: string)
    ensures r == [] || (!IsWhiteSpace(r[0]) && !IsWhiteSpace(r[|r| - 1]))
    ensures exists i :: 0 <= i <= |s| - |r| && r == s[i..i + |r|] && AllWhiteSpace(s[..i]) && AllWhiteSpace(s[i + |r|..])
  {
    var i := WhiteRunEnd(s, 0);
    var j := WhiteRunStart(s, i, |s|);
    assert AllWhiteSpace(s[..i]);
    assert AllWhiteSpace(s[j..]);
    assert s[i..j] == s[i..i + (j - i)];
    s[i..j]
  }

  /** A string trims to nothing exactly when it is all white space. */
  lemma TrimEmptyIff(s: string)
    ensures Trim(s) == [] <==> AllWhiteSpace(s)
  {
    var i :| 0 <= i <= |s| - |Trim(s)| && Trim(s) == s[i..i + |Trim(s)|] && AllWhiteSpace(s[..i]) && AllWhiteSpace(s[i + |Trim(s)|..]);
    if Trim(s) == [] {
      forall k | 0 <= k < |s|
        ensures IsWhiteSpace(s[k])
      {
        if k < i {
          assert s[..i][k] == s[k];
        } else {
          assert s[i..][k - i] == s[k];
        }
      }
    } else {
      var r := Trim(s);
      assert s[i] == r[0];
    }
  }

  /** Trimming a trimmed string changes nothing. */
  lemma TrimIdempotent(s: string)
    ensures Trim(Trim(s)) == Trim(s)
  {
    var r := Trim(s);
    if r != [] {
      assert WhiteRunEnd(r, 0) == 0;
      assert WhiteRunStart(r, 0, |r|) == |r|;
      assert r[0..|r|] == r;
    }
  }
}
