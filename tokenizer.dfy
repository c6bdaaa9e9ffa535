/**
  Model/Preprocessing/Tokenizer.cs: whitespace normalisation, the regular-expression split
  and the token filter. The split by the date/URL/number/word pattern is .NET's Regex.Split
  and is a parameter here (split); so is Char.IsPunctuation (isPunctuation).
*/
module Tokenizer {
  import opened Text
  import opened Seqs

  /** Regex.Replace(text, "\n", " "). */
  function ReplaceNewlines(s: string): (r: string)
    ensures |r| == |s|
    ensures forall k :: 0 <= k < |s| ==> r[k] == (if s[k] == '\n' then ' ' else s[k])
    decreases |s|
  {
    if s == [] then [] else [if s[0] == '\n' then ' ' else s[0]] + ReplaceNewlines(s[1..])
  }

  /** Regex.Replace(text, "\\s+", " "): every maximal run of white space becomes one space. */
  function Collapse(s: string): (r: string)
    decreases |s|
  {
    if s == [] then []
    else if IsWhiteSpace(s[0]) then " " + Collapse(s[WhiteRunEnd(s, 0)..])
    else [s[0]] + Collapse(s[1..])
  }

  /** s with its white space removed. */
  function NonWhite(s: string): (r: string)
    ensures forall k :: 0 <= k < |r| ==> !IsWhiteSpace(r[k])
    decreases |s|
  {
    if s == [] then [] else (if IsWhiteSpace(s[0]) then [] else [s[0]]) + NonWhite(s[1..])
  }

  predicate SingleSpaced(s: string) {
    (forall k :: 0 <= k < |s| && IsWhiteSpace(s[k]) ==> s[k] == ' ') &&
    (forall k :: 0 <= k < |s| - 1 ==> !(IsWhiteSpace(s[k]) && IsWhiteSpace(s[k + 1])))
  }

  /** The collapsed text starts with white space exactly when the text does. */
  lemma {:induction false} CollapseFirst(s: string)
    requires s != []
    ensures Collapse(s) != [] && (IsWhiteSpace(Collapse(s)[0]) <==> IsWhiteSpace(s[0]))
  {
  }

  /** After the replacement no white space is left but single spaces between other characters. */
  lemma {:induction false} CollapseSingleSpaced(s: string)
    ensures SingleSpaced(Collapse(s))
    decreases |s|
  {
    if s != [] {
      var r := Collapse(s);
      if IsWhiteSpace(s[0]) {
        var e := WhiteRunEnd(s, 0);
        var rest := s[e..];
        CollapseSingleSpaced(rest);
        if rest != [] {
          CollapseFirst(rest);
        }
        assert r == " " + Collapse(rest);
        forall k | 0 <= k < |r| - 1
          ensures !(IsWhiteSpace(r[k]) && IsWhiteSpace(r[k + 1]))
        {
          if k > 0 {
            assert r[k] == Collapse(rest)[k - 1] && r[k + 1] == Collapse(rest)[k];
          }
        }
      } else {
        var rest := s[1..];
        CollapseSingleSpaced(rest);
        assert r == [s[0]] + Collapse(rest);
        forall k | 0 <= k < |r| - 1
          ensures !(IsWhiteSpace(r[k]) && IsWhiteSpace(r[k + 1]))
        {
          if k > 0 {
            assert r[k] == Collapse(rest)[k - 1] && r[k + 1] == Collapse(rest)[k];
          }
        }
      }
    }
  }

  lemma {:induction false} NonWhiteOfWhiteRun(s: string, e: nat)
    requires e <= |s|
    requires forall k :: 0 <= k < e ==> IsWhiteSpace(s[k])
    ensures NonWhite(s) == NonWhite(s[e..])
    decreases e
  {
    if e > 0 {
      assert s[1..][e - 1..] == s[e..];
      NonWhiteOfWhiteRun(s[1..], e - 1);
    }
  }

  /** Collapsing white space keeps every other character, in order. */
  lemma {:induction false} CollapseKeepsText(s: string)
    ensures NonWhite(Collapse(s)) == NonWhite(s)
    decreases |s|
  {
    if s != [] {
      if IsWhiteSpace(s[0]) {
        var e := WhiteRunEnd(s, 0);
        CollapseKeepsText(s[e..]);
        NonWhiteOfWhiteRun(s, e);
        var r := Collapse(s);
        assert r[1..] == Collapse(s[e..]);
      } else {
        CollapseKeepsText(s[1..]);
        var r := Collapse(s);
        assert r[1..] == Collapse(s[1..]);
      }
    }
  }

  lemma {:induction false} ReplaceNewlinesSuffix(s: string, i: nat)
    requires i <= |s|
    ensures ReplaceNewlines(s)[i..] == ReplaceNewlines(s[i..])
  {
  }

  lemma {:induction false} WhiteRunEndOfReplaced(s: string, i: nat)
    requires i <= |s|
    ensures WhiteRunEnd(ReplaceNewlines(s), i) == WhiteRunEnd(s, i)
    decreases |s| - i
  {
    if i < |s| && IsWhiteSpace(s[i]) {
      WhiteRunEndOfReplaced(s, i + 1);
    }
  }

  /** The first replacement is subsumed by the second: "\n" is white space already. */
  lemma {:induction false} CollapseIgnoresNewlines(s: string)
    ensures Collapse(ReplaceNewlines(s)) == Collapse(s)
    decreases |s|
  {
    if s != [] {
      var t := ReplaceNewlines(s);
      if IsWhiteSpace(s[0]) {
        var e := WhiteRunEnd(s, 0);
        WhiteRunEndOfReplaced(s, 0);
        ReplaceNewlinesSuffix(s, e);
        CollapseIgnoresNewlines(s[e..]);
      } else {
        ReplaceNewlinesSuffix(s, 1);
        CollapseIgnoresNewlines(s[1..]);
      }
    }
  }

  /** The per-token test of FilterTokens: blank tokens and one-character punctuation are dropped. */
  predicate Kept(token: string, isPunctuation: char -> bool) {
    Trim(token) != [] && !(|token| == 1 && isPunctuation(token[0]))
  }

  /** FilterTokens as a function: the trimmed kept tokens, in order. */
  function Filtered(tokens: seq<string>, isPunctuation: char -> bool): (r: seq<string>)
    ensures |r| <= |tokens|
    decreases |tokens|
  {
    if tokens == [] then []
    else
      var last := tokens[|tokens| - 1];
      Filtered(tokens[..|tokens| - 1], isPunctuation) + (if Kept(last, isPunctuation) then [Trim(last)] else [])
  }

  /** FilterTokens: the foreach loop over the split pieces. */
  method FilterTokens(tokens: seq<string>, isPunctuation: char -> bool) returns (filtered: seq<string>)
    ensures filtered == Filtered(tokens, isPunctuation)
  {
    filtered := [];
    for i := 0 to |tokens|
      invariant filtered == Filtered(tokens[..i], isPunctuation)
    {
      assert tokens[..i + 1][..i] == tokens[..i];
      var token := tokens[i];
      if |Trim(token)| == 0 {
        continue;
      } else if |token| == 1 {
        if isPunctuation(token[0]) {
          continue;
        }
      }
      filtered := filtered + [Trim(token)];
    }
    assert tokens[..|tokens|] == tokens;
  }

  /** A token survives exactly when some piece is kept and trims to it. */
  lemma {:induction false} FilteredMembers(tokens: seq<string>, isPunctuation: char -> bool, x: string)
    ensures x in Filtered(tokens, isPunctuation) <==> exists t :: t in tokens && Kept(t, isPunctuation) && Trim(t) == x
    decreases |tokens|
  {
    if tokens != [] {
      var init := tokens[..|tokens| - 1];
      var last := tokens[|tokens| - 1];
      FilteredMembers(init, isPunctuation, x);
      assert tokens == init + [last];
      if x in Filtered(tokens, isPunctuation) {
        if x !in Filtered(init, isPunctuation) {
          assert Kept(last, isPunctuation) && Trim(last) == x;
        }
      }
    }
  }

  /** Every token handed on is non-empty and has no white space at either end. */
  lemma {:induction false} FilteredTokensTrimmed(tokens: seq<string>, isPunctuation: char -> bool)
    ensures forall x :: x in Filtered(tokens, isPunctuation) ==> x != [] && Trim(x) == x
  {
    forall x | x in Filtered(tokens, isPunctuation)
      ensures x != [] && Trim(x) == x
    {
      FilteredMembers(tokens, isPunctuation, x);
      var t :| t in tokens && Kept(t, isPunctuation) && Trim(t) == x;
      TrimIdempotent(t);
    }
  }

  /** Filtering works piece by piece. */
  lemma {:induction false} FilteredAppend(a: seq<string>, b: seq<string>, isPunctuation: char -> bool)
    ensures Filtered(a + b, isPunctuation) == Filtered(a, isPunctuation) + Filtered(b, isPunctuation)
    decreases |b|
  {
    if b != [] {
      var init := b[..|b| - 1];
      assert (a + b)[..|a + b| - 1] == a + init;
      FilteredAppend(a, init, isPunctuation);
    } else {
      assert a + b == a;
    }
  }

  /** A lone punctuation mark is dropped, but the same mark with a space beside it is trimmed
      and kept. */
  lemma PaddedPunctuationKept(isPunctuation: char -> bool)
    requires isPunctuation(',')
    ensures Filtered([","], isPunctuation) == []
    ensures Filtered([" ,"], isPunctuation) == [","]
  {
    assert WhiteRunEnd(",", 0) == 0;
    assert WhiteRunStart(",", 0, 1) == 1;
    assert Trim(",") == ",";
    assert WhiteRunEnd(" ,", 0) == 1;
    assert WhiteRunStart(" ,", 1, 2) == 2;
    assert Trim(" ,") == ",";
    assert [" ,"][..0] == [];
    assert [","][..0] == [];
  }

  /** Tokenizer.Tokenize as a function of the text. */
  function Tokens(text: string, split: string -> seq<string>, isPunctuation: char -> bool): seq<string> {
    Filtered(split(Collapse(ReplaceNewlines(text))), isPunctuation)
  }

  /** Tokenizer.Tokenize: the two replacements, the split and the filter. */
  method Tokenize(text: string, split: string -> seq<string>, isPunctuation: char -> bool) returns (tokenList: seq<string>)
    ensures tokenList == Tokens(text, split, isPunctuation)
    ensures tokenList == Filtered(split(Collapse(text)), isPunctuation)
    ensures forall x :: x in tokenList ==> x != [] && Trim(x) == x
  {
    var spaced := ReplaceNewlines(text);
    spaced := Collapse(spaced);
    var tokens := split(spaced);
    tokenList := FilterTokens(tokens, isPunctuation);
    CollapseIgnoresNewlines(text);
    FilteredTokensTrimmed(tokens, isPunctuation);
  }
}
