/**
  Model/Preprocessing/Stopwords.cs: the stopword list and its configuration. The list is a
  field the class replaces; reading the file is left to the caller, who passes the array of
  lines that File.ReadAllLines returns. String.ToLower is the parameter toLower, and the
  accent table is the one Accents.RemoveAccents works with.
*/
module StopwordList {
  import opened Text
  import opened Seqs
  import opened Config
  import opened Accents

  /** The tokens that are not stopwords, in their order. */
  function Without(tokens: seq<string>, stopwords: seq<string>): (r: seq<string>)
    ensures |r| <= |tokens|
    decreases |tokens|
  {
    if tokens == [] then []
    else
      var last := tokens[|tokens| - 1];
      Without(tokens[..|tokens| - 1], stopwords) + (if last in stopwords then [] else [last])
  }

  /** A stopword file line as LoadStopwords leaves it: trimmed, then lower-cased, then
      stripped of accents, each step when the configuration asks for it. */
  function Normalized(line: string, config: AnalyzerConfig, toLower: string -> string, table: AlignedTable): string {
    var trimmed := Trim(line);
    var lowered := if config.lowercase then toLower(trimmed) else trimmed;
    if config.removeAccents then Unaccented(table, lowered) else lowered
  }

  class Stopwords {
    var stopwordsList: seq<string>
    var config: AnalyzerConfig

    /** An empty list under the default configuration. */
    constructor()
      ensures stopwordsList == [] && config == DefaultConfig
    {
      stopwordsList := [];
      config := DefaultConfig;
    }

    /** RemoveStopwords: keeps each token not in the list. */
    method RemoveStopwords(tokens: seq<string>) returns (validTokens: seq<string>)
      ensures validTokens == Without(tokens, stopwordsList)
      ensures forall x :: x in validTokens <==> x in tokens && x !in stopwordsList
    {
      validTokens := [];
      for i := 0 to |tokens|
        invariant validTokens == Without(tokens[..i], stopwordsList)
      {
        assert tokens[..i + 1][..i] == tokens[..i];
        var token := tokens[i];
        if token !in stopwordsList {
          validTokens := validTokens + [token];
        }
      }
      assert tokens[..|tokens|] == tokens;
      forall x
        ensures x in validTokens <==> x in tokens && x !in stopwordsList
      {
        WithoutMembers(tokens, stopwordsList, x);
      }
    }

    /** LoadStopwords: normalises the lines in place under the current configuration, then
        makes them the list. */
    method LoadStopwords(lines: array<string>, toLower: string -> string, table: AlignedTable)
      modifies this, lines
      ensures config == old(config)
      ensures forall k :: 0 <= k < lines.Length ==> lines[k] == Normalized(old(lines[k]), config, toLower, table)
      ensures stopwordsList == lines[..]
    {
      ghost var original := lines[..];
      for i := 0 to lines.Length
        modifies lines
        invariant forall k :: 0 <= k < i ==> lines[k] == Normalized(original[k], config, toLower, table)
        invariant forall k :: i <= k < lines.Length ==> lines[k] == original[k]
      {
        var line := NormalizeLine(lines[i], toLower, table);
        lines[i] := line;
      }
      stopwordsList := lines[..];
    }

    /** The body of LoadStopwords' loop for one line. */
    method NormalizeLine(original: string, toLower: string -> string, table: AlignedTable) returns (line: string)
      ensures line == Normalized(original, config, toLower, table)
    {
      line := Trim(original);
      if config.lowercase {
        line := toLower(line);
      }
      if config.removeAccents {
        line := RemoveAccents(table, line);
      }
    }

    /** SetConfig: replaces the configuration; a list already loaded is not normalised again. */
    method SetConfig(config: AnalyzerConfig)
      modifies this
      ensures this.config == config
      ensures stopwordsList == old(stopwordsList)
    {
      this.config := config;
    }
  }

  /** A token survives exactly when it is not a stopword. */
  lemma {:induction false} WithoutMembers(tokens: seq<string>, stopwords: seq<string>, x: string)
    ensures x in Without(tokens, stopwords) <==> x in tokens && x !in stopwords
    decreases |tokens|
  {
    if tokens != [] {
      var init := tokens[..|tokens| - 1];
      WithoutMembers(init, stopwords, x);
      assert tokens == init + [tokens[|tokens| - 1]];
    }
  }

  /** Removal keeps the order of the surviving tokens. */
  lemma {:induction false} WithoutSubsequence(tokens: seq<string>, stopwords: seq<string>)
    ensures IsSubsequence(Without(tokens, stopwords), tokens)
    decreases |tokens|
  {
    if tokens != [] {
      var init := tokens[..|tokens| - 1];
      var last := tokens[|tokens| - 1];
      var r := Without(tokens, stopwords);
      WithoutSubsequence(init, stopwords);
      if last !in stopwords {
        assert r[..|r| - 1] == Without(init, stopwords);
      } else {
        assert r == Without(init, stopwords) + [];
        assert r == Without(init, stopwords);
        assert IsSubsequence(r, init);
        SubsequenceExtend(r, init, last);
        assert init + [last] == tokens;
      }
    }
  }

  /** Nothing is removed exactly when no token is a stopword. */
  lemma {:induction false} WithoutUnchangedIff(tokens: seq<string>, stopwords: seq<string>)
    ensures Without(tokens, stopwords) == tokens <==> forall x :: x in tokens ==> x !in stopwords
    decreases |tokens|
  {
    if tokens != [] {
      var init := tokens[..|tokens| - 1];
      var last := tokens[|tokens| - 1];
      WithoutUnchangedIff(init, stopwords);
      assert tokens == init + [last];
      if Without(tokens, stopwords) == tokens {
        forall x | x in tokens
          ensures x !in stopwords
        {
          WithoutMembers(tokens, stopwords, x);
        }
      }
    }
  }

  /** Removing stopwords twice removes nothing more. */
  lemma WithoutIdempotent(tokens: seq<string>, stopwords: seq<string>)
    ensures Without(Without(tokens, stopwords), stopwords) == Without(tokens, stopwords)
  {
    var r := Without(tokens, stopwords);
    forall x | x in r
      ensures x !in stopwords
    {
      WithoutMembers(tokens, stopwords, x);
    }
    WithoutUnchangedIff(r, stopwords);
  }

  /** Removal works list piece by list piece. */
  lemma {:induction false} WithoutAppend(a: seq<string>, b: seq<string>, stopwords: seq<string>)
    ensures Without(a + b, stopwords) == Without(a, stopwords) + Without(b, stopwords)
    decreases |b|
  {
    if b != [] {
      var init := b[..|b| - 1];
      assert (a + b)[..|a + b| - 1] == a + init;
      WithoutAppend(a, init, stopwords);
    } else {
      assert a + b == a;
    }
  }
}
