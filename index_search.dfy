/**
  Values and orderings the searches of Model/Indexing/InvertedIndex.cs compute: the
  prefiltering query string, the lookup of documents by id, the query's term frequencies,
  and the ranking and counting of vector-space results.
*/
module IndexSearch {
  import opened Wrappers
  import opened Seqs
  import opened Documents
  import opened BooleanQueryParser
  import opened Postings

  // ---------------------------------------------------------------------------
  // The prefiltering query (PreprocessQueryForPrefiltering)

  /** The tokens with sep between neighbours. */
  function JoinWith(tokens: seq<string>, sep: string): string {
    if tokens == [] then "" else Terminated(tokens[..|tokens| - 1], sep) + tokens[|tokens| - 1]
  }

  /** The loop each branch of PreprocessQueryForPrefiltering runs: every token but the last is
      followed by the separator. */
  method JoinTokens(tokens: seq<string>, sep: string) returns (newQuery: string)
    ensures newQuery == JoinWith(tokens, sep)
  {
    newQuery := "";
    for i := 0 to |tokens|
      invariant i < |tokens| ==> newQuery == Terminated(tokens[..i], sep)
      invariant i == |tokens| ==> newQuery == JoinWith(tokens, sep)
    {
      if i != |tokens| - 1 {
        assert tokens[..i + 1][..i] == tokens[..i];
        newQuery := newQuery + (tokens[i] + sep);
      } else {
        newQuery := newQuery + tokens[i];
      }
    }
  }

  /** The tokens with op between neighbours, as a token list. */
  function Interleave(tokens: seq<string>, op: string): (r: seq<string>)
    ensures |r| == if tokens == [] then 0 else 2 * |tokens| - 1
    ensures forall k :: 0 <= k < |r| ==> r[k] == if k % 2 == 0 then tokens[k / 2] else op
    decreases |tokens|
  {
    if |tokens| <= 1 then tokens
    else
      var rest := Interleave(tokens[1..], op);
      assert forall k :: 2 <= k < 2 + |rest| ==> (k - 2) % 2 == k % 2 && (k - 2) / 2 == k / 2 - 1;
      [tokens[0], op] + rest
  }

  lemma JoinWithFront(tokens: seq<string>, sep: string)
    requires |tokens| >= 2
    ensures JoinWith(tokens, sep) == tokens[0] + sep + JoinWith(tokens[1..], sep)
  {
    var n := |tokens|;
    var middle := tokens[1..n - 1];
    var t := Terminated(middle, sep);
    assert Terminated(tokens[..n - 1], sep) == tokens[0] + sep + t by {
      TerminatedFront(tokens[..n - 1], sep);
      assert tokens[..n - 1][1..] == middle;
    }
    assert JoinWith(tokens[1..], sep) == t + tokens[n - 1] by {
      assert tokens[1..][..n - 2] == middle;
    }
    SeqAssoc(tokens[0] + sep, t, tokens[n - 1]);
  }

  /** The first item's text and separator come first. */
  lemma TerminatedFront(items: seq<string>, sep: string)
    requires items != []
    ensures Terminated(items, sep) == items[0] + sep + Terminated(items[1..], sep)
  {
    assert items == [items[0]] + items[1..];
    TerminatedAppend([items[0]], items[1..], sep);
    assert [items[0]][..0] == [];
  }

  /** Joining with " op " is joining the interleaved tokens by single spaces. */
  lemma {:induction false} JoinWithIsJoinBySpace(tokens: seq<string>, op: string)
    ensures JoinWith(tokens, " " + op + " ") == JoinBySpace(Interleave(tokens, op))
    decreases |tokens|
  {
    if |tokens| == 1 {
      assert tokens[..0] == [];
    } else if |tokens| >= 2 {
      var rest := Interleave(tokens[1..], op);
      var x := JoinBySpace(rest);
      JoinWithFront(tokens, " " + op + " ");
      JoinWithIsJoinBySpace(tokens[1..], op);
      assert Interleave(tokens, op) == [tokens[0], op] + rest;
      JoinBySpacePair(tokens[0], op, rest);
      SpacedOperator(tokens[0], op, x);
    }
  }

  /** A word and an operator in front of further words are joined by spaces. */
  lemma JoinBySpacePair(a: string, op: string, rest: seq<string>)
    requires rest != []
    ensures JoinBySpace([a, op] + rest) == a + " " + (op + " " + JoinBySpace(rest))
  {
    var w := [a, op] + rest;
    assert w[1..] == [op] + rest;
    assert ([op] + rest)[1..] == rest;
  }

  /** Regrouping the text around " op ". */
  lemma SpacedOperator(a: string, op: string, x: string)
    ensures a + (" " + op + " ") + x == a + " " + (op + " " + x)
  {
    calc {
      a + (" " + op + " ") + x;
    == { SeqAssoc(" ", op, " "); }
      a + (" " + (op + " ")) + x;
    == { SeqAssoc(a, " ", op + " "); }
      (a + " ") + (op + " ") + x;
    == { SeqAssoc(a + " ", op + " ", x); }
      (a + " ") + (op + " " + x);
    }
  }

  /** For plain words that are not operators, the parser reads a prefiltering query back as
      exactly the words with the operator between each neighbouring pair: no implicit OR is
      added and nothing is split or merged. */
  lemma PrefilterQueryTokens(tokens: seq<string>, op: string)
    requires op == "AND" || op == "OR"
    requires forall k :: 0 <= k < |tokens| ==> PlainWord(tokens[k]) && !IsOperator(tokens[k])
    ensures Tokens(JoinWith(tokens, " " + op + " ")) == Interleave(tokens, op)
  {
    var r := Interleave(tokens, op);
    InterleavePlain(tokens, op);
    JoinWithIsJoinBySpace(tokens, op);
    ScanJoinedWords(r);
    InterleaveNoAdjacentLiterals(tokens, op);
    WithImplicitOrFixedIff(r);
  }

  lemma InterleavePlain(tokens: seq<string>, op: string)
    requires op == "AND" || op == "OR"
    requires forall k :: 0 <= k < |tokens| ==> PlainWord(tokens[k])
    ensures forall k :: 0 <= k < |Interleave(tokens, op)| ==> PlainWord(Interleave(tokens, op)[k])
  {
    var r := Interleave(tokens, op);
    assert PlainWord(op) by {
      if op == "AND" {
        assert op == ['A', 'N', 'D'];
      } else {
        assert op == ['O', 'R'];
      }
    }
    forall k | 0 <= k < |r|
      ensures PlainWord(r[k])
    {
      if k % 2 == 0 {
        assert r[k] == tokens[k / 2];
      } else {
        assert r[k] == op;
      }
    }
  }

  lemma InterleaveNoAdjacentLiterals(tokens: seq<string>, op: string)
    requires op == "AND" || op == "OR"
    ensures NoAdjacentLiterals(Interleave(tokens, op))
  {
    var r := Interleave(tokens, op);
    assert IsOperator(op);
    forall k | 0 <= k < |r| - 1
      ensures IsOperator(r[k]) || IsOperator(r[k + 1])
    {
      if k % 2 == 0 {
        assert (k + 1) % 2 == 1;
        assert r[k + 1] == op;
      } else {
        assert r[k] == op;
      }
    }
  }

  // ---------------------------------------------------------------------------
  // GetDocumentsByIds

  /** The documents with the given ids, in order; the first id that is too large fails with
      NonExistentDocument and the first negative one with the list's ArgumentOutOfRange. */
  function ByIds<D, E>(docs: seq<D>, ids: seq<int>, tooLarge: E, negative: E): Result<seq<D>, E>
    decreases |ids|
  {
    if ids == [] then Success([])
    else
      var rest :- ByIds(docs, ids[..|ids| - 1], tooLarge, negative);
      var id := ids[|ids| - 1];
      if id >= |docs| then Failure(tooLarge)
      else if id < 0 then Failure(negative)
      else Success(rest + [docs[id]])
  }

  /** Lookup succeeds exactly when every id names a document, and then returns those documents
      in the order of the ids; otherwise the first bad id decides the error. */
  lemma {:induction false} ByIdsMeaning<D, E>(docs: seq<D>, ids: seq<int>, tooLarge: E, negative: E)
    ensures ByIds(docs, ids, tooLarge, negative).Success? <==> forall k :: 0 <= k < |ids| ==> 0 <= ids[k] < |docs|
    ensures ByIds(docs, ids, tooLarge, negative).Success? ==>
      |ByIds(docs, ids, tooLarge, negative).value| == |ids| &&
      forall k :: 0 <= k < |ids| ==> ByIds(docs, ids, tooLarge, negative).value[k] == docs[ids[k]]
    ensures ByIds(docs, ids, tooLarge, negative).Failure? ==>
      exists k :: 0 <= k < |ids| && !(0 <= ids[k] < |docs|) &&
        (forall j :: 0 <= j < k ==> 0 <= ids[j] < |docs|) &&
        ByIds(docs, ids, tooLarge, negative).error == if ids[k] >= |docs| then tooLarge else negative
    decreases |ids|
  {
    if ids != [] {
      var init := ids[..|ids| - 1];
      ByIdsMeaning(docs, init, tooLarge, negative);
      var r := ByIds(docs, ids, tooLarge, negative);
      if ByIds(docs, init, tooLarge, negative).Failure? {
        var k :| 0 <= k < |init| && !(0 <= init[k] < |docs|) &&
          (forall j :: 0 <= j < k ==> 0 <= init[j] < |docs|) &&
          ByIds(docs, init, tooLarge, negative).error == if init[k] >= |docs| then tooLarge else negative;
        assert ids[k] == init[k];
        assert forall j :: 0 <= j < k ==> ids[j] == init[j];
      } else if r.Failure? {
        assert forall j :: 0 <= j < |init| ==> ids[j] == init[j];
      } else {
        assert forall j :: 0 <= j < |init| ==> ids[j] == init[j];
      }
    }
  }

  /** Once a prefix of the ids fails, the whole lookup fails the same way. */
  lemma {:induction false} ByIdsPrefixFailure<D, E>(docs: seq<D>, ids: seq<int>, n: nat, tooLarge: E, negative: E)
    requires n <= |ids| && ByIds(docs, ids[..n], tooLarge, negative).Failure?
    ensures ByIds(docs, ids, tooLarge, negative) == ByIds(docs, ids[..n], tooLarge, negative)
    decreases |ids|
  {
    if n < |ids| {
      var init := ids[..|ids| - 1];
      assert init[..n] == ids[..n];
      ByIdsPrefixFailure(docs, init, n, tooLarge, negative);
    } else {
      assert ids[..n] == ids;
    }
  }

  // ---------------------------------------------------------------------------
  // The query's term frequencies (GetQueryVector)

  /** The ids of the query tokens that are in the vocabulary, in token order. */
  function KnownIds(tokens: seq<string>, termIdMap: map<string, int>): (r: seq<int>)
    ensures forall k :: 0 <= k < |r| ==> r[k] in termIdMap.Values
    decreases |tokens|
  {
    if tokens == [] then []
    else
      var last := tokens[|tokens| - 1];
      KnownIds(tokens[..|tokens| - 1], termIdMap) + (if last in termIdMap then [termIdMap[last]] else [])
  }

  /** Every vocabulary term's id is listed once per occurrence of the term among the tokens. */
  lemma {:induction false} KnownIdsCount(tokens: seq<string>, termIdMap: map<string, int>, terms: seq<string>)
    requires Vocabulary(termIdMap, terms)
    ensures forall i :: 0 <= i < |terms| ==> multiset(KnownIds(tokens, termIdMap))[i] == multiset(tokens)[terms[i]]
    decreases |tokens|
  {
    if tokens != [] {
      var init := tokens[..|tokens| - 1];
      var last := tokens[|tokens| - 1];
      var extra: seq<int> := if last in termIdMap then [termIdMap[last]] else [];
      KnownIdsCount(init, termIdMap, terms);
      VocabularyInverse(termIdMap, terms);
      assert tokens == init + [last];
      assert multiset(tokens) == multiset(init) + multiset{last};
      assert multiset(KnownIds(tokens, termIdMap)) == multiset(KnownIds(init, termIdMap)) + multiset(extra);
      forall i | 0 <= i < |terms|
        ensures multiset(extra)[i] == multiset{last}[terms[i]]
      {
        if last == terms[i] {
          assert extra == [i];
        } else if last in termIdMap {
          assert termIdMap[last] != i;
        }
      }
    }
  }

  /** Nothing is listed exactly when no token is in the vocabulary. */
  lemma {:induction false} KnownIdsEmpty(tokens: seq<string>, termIdMap: map<string, int>)
    ensures KnownIds(tokens, termIdMap) == [] <==> forall k :: 0 <= k < |tokens| ==> tokens[k] !in termIdMap
    decreases |tokens|
  {
    if tokens != [] {
      var init := tokens[..|tokens| - 1];
      KnownIdsEmpty(init, termIdMap);
      assert forall k :: 0 <= k < |init| ==> tokens[k] == init[k];
    }
  }

  // ---------------------------------------------------------------------------
  // Ranking (OrderByDescending on the similarity dictionary)

  /** A similarity-dictionary entry: a prefiltered document and its cosine similarity. */
  datatype Scored = Scored(documentId: int, score: real)

  /** The dictionary's entries in insertion order. */
  function ScoresOf(ids: seq<int>, similarity: int -> real): (r: seq<Scored>)
    ensures |r| == |ids| && forall k :: 0 <= k < |ids| ==> r[k] == Scored(ids[k], similarity(ids[k]))
  {
    seq(|ids|, k requires 0 <= k < |ids| => Scored(ids[k], similarity(ids[k])))
  }

  /** e goes before the first entry that does not score higher: among equal scores the
      earlier entry stays first. */
  function InsertByScore(e: Scored, s: seq<Scored>): (r: seq<Scored>)
    ensures multiset(r) == multiset(s) + multiset{e}
    decreases |s|
  {
    if s == [] then [e]
    else if e.score >= s[0].score then [e] + s
    else
      assert s == [s[0]] + s[1..];
      [s[0]] + InsertByScore(e, s[1..])
  }

  /** OrderByDescending(entry => similarity): a stable sort, highest score first. */
  function RankByScore(s: seq<Scored>): (r: seq<Scored>)
    ensures multiset(r) == multiset(s)
    ensures NonIncreasing(r)
    decreases |s|
  {
    if s == [] then []
    else
      assert s == [s[0]] + s[1..];
      InsertByScoreSorted(s[0], RankByScore(s[1..]));
      InsertByScore(s[0], RankByScore(s[1..]))
  }

  predicate NonIncreasing(s: seq<Scored>) {
    forall i, j :: 0 <= i < j < |s| ==> s[i].score >= s[j].score
  }

  lemma {:induction false} InsertByScoreSorted(e: Scored, s: seq<Scored>)
    requires NonIncreasing(s)
    ensures NonIncreasing(InsertByScore(e, s))
    decreases |s|
  {
    if s != [] && e.score < s[0].score {
      InsertByScoreSorted(e, s[1..]);
      InsertByScoreBounded(e, s[1..], s[0].score);
    }
  }

  /** Inserting an entry no higher than a bound into entries no higher than it keeps every
      entry no higher than it. */
  lemma {:induction false} InsertByScoreBounded(e: Scored, s: seq<Scored>, bound: real)
    requires e.score <= bound && forall k :: 0 <= k < |s| ==> s[k].score <= bound
    ensures forall k :: 0 <= k < |InsertByScore(e, s)| ==> InsertByScore(e, s)[k].score <= bound
    decreases |s|
  {
    if s != [] && e.score < s[0].score {
      InsertByScoreBounded(e, s[1..], bound);
    }
  }

  /** The entries of s with score v, in their order in s. */
  function WithScore(s: seq<Scored>, v: real): (r: seq<Scored>)
    ensures |r| <= |s|
    ensures forall k :: 0 <= k < |r| ==> r[k].score == v
    decreases |s|
  {
    if s == [] then []
    else (if s[0].score == v then [s[0]] else []) + WithScore(s[1..], v)
  }

  /** OrderByDescending is stable: entries with equal scores keep their candidate order, so
      the ranking, and with it the truncation at TopCount, is fixed by that order. */
  lemma {:induction false} RankIsStable(s: seq<Scored>, v: real)
    ensures WithScore(RankByScore(s), v) == WithScore(s, v)
    decreases |s|
  {
    if s != [] {
      RankIsStable(s[1..], v);
      InsertWithScore(s[0], RankByScore(s[1..]), v);
    }
  }

  /** Insertion passes only entries scoring higher than e, so among the entries with e's score,
      e comes first. */
  lemma {:induction false} InsertWithScore(e: Scored, s: seq<Scored>, v: real)
    ensures WithScore(InsertByScore(e, s), v) == (if e.score == v then [e] else []) + WithScore(s, v)
    decreases |s|
  {
    if s != [] && e.score < s[0].score {
      var t := InsertByScore(e, s[1..]);
      InsertWithScore(e, s[1..], v);
      assert InsertByScore(e, s) == [s[0]] + t;
      assert ([s[0]] + t)[1..] == t;
    } else if s != [] {
      assert ([e] + s)[1..] == s;
    } else {
      assert [e][1..] == [];
    }
  }

  /** The TopCount loop: stop after topCount entries; a negative count never matches, so
      every entry is taken. */
  function TopK(ranked: seq<Scored>, topCount: int): (r: seq<Scored>)
    ensures |r| == if 0 <= topCount <= |ranked| then topCount else |ranked|
    ensures r == ranked[..|r|]
  {
    if 0 <= topCount <= |ranked| then ranked[..topCount] else ranked
  }

  /** The first topCount entries by score are a top-k selection: highest scores first, all
      taken from the entries, and no entry left out scores higher than one taken. */
  lemma TopKByScore(entries: seq<Scored>, topCount: int)
    ensures NonIncreasing(TopK(RankByScore(entries), topCount))
    ensures |TopK(RankByScore(entries), topCount)| == if 0 <= topCount <= |entries| then topCount else |entries|
    ensures forall i :: 0 <= i < |TopK(RankByScore(entries), topCount)| ==> TopK(RankByScore(entries), topCount)[i] in entries
    ensures forall e, i :: e in entries && e !in TopK(RankByScore(entries), topCount) && 0 <= i < |TopK(RankByScore(entries), topCount)| ==>
      e.score <= TopK(RankByScore(entries), topCount)[i].score
  {
    var ranked := RankByScore(entries);
    var top := TopK(ranked, topCount);
    assert |ranked| == |multiset(ranked)| == |multiset(entries)| == |entries|;
    PrefixFromEntries(entries, ranked, top);
    PrefixDominates(entries, ranked, top);
  }

  /** A prefix of a reordering of the entries holds entries only. */
  lemma PrefixFromEntries(entries: seq<Scored>, ranked: seq<Scored>, top: seq<Scored>)
    requires multiset(ranked) == multiset(entries) && |top| <= |ranked| && top == ranked[..|top|]
    ensures forall i :: 0 <= i < |top| ==> top[i] in entries
  {
    forall i | 0 <= i < |top|
      ensures top[i] in entries
    {
      assert top[i] == ranked[i];
      assert ranked[i] in multiset(entries);
    }
  }

  /** An entry left out of a prefix of the ranking scores no higher than any entry in it. */
  lemma PrefixDominates(entries: seq<Scored>, ranked: seq<Scored>, top: seq<Scored>)
    requires multiset(ranked) == multiset(entries) && NonIncreasing(ranked)
    requires |top| <= |ranked| && top == ranked[..|top|]
    ensures forall e, i :: e in entries && e !in top && 0 <= i < |top| ==> e.score <= top[i].score
  {
    forall e, i | e in entries && e !in top && 0 <= i < |top|
      ensures e.score <= top[i].score
    {
      assert e in multiset(ranked);
      var j :| 0 <= j < |ranked| && ranked[j] == e;
      assert forall k :: 0 <= k < |top| ==> top[k] == ranked[k] != e;
      assert top[i] == ranked[i];
    }
  }

  // ---------------------------------------------------------------------------
  // The reported number of hits

  /** The number of entries with a non-zero similarity: the count the search reports. */
  function NonZeroCount(s: seq<Scored>): (n: nat)
    ensures n <= |s|
    decreases |s|
  {
    if s == [] then 0 else NonZeroCount(s[..|s| - 1]) + (if s[|s| - 1].score != 0.0 then 1 else 0)
  }

  /** The count as written: the indexed overload of Where hands the lambda the entry and its
      position, so the test `cos != 0` looks at the position, not the similarity. */
  function NonZeroCountAsWritten(s: seq<Scored>): nat
    decreases |s|
  {
    if s == [] then 0 else NonZeroCountAsWritten(s[..|s| - 1]) + (if |s| - 1 != 0 then 1 else 0)
  }

  /** The written count is one less than the number of entries, whatever the scores. */
  lemma {:induction false} AsWrittenCountsAllButFirst(s: seq<Scored>)
    requires s != []
    ensures NonZeroCountAsWritten(s) == |s| - 1
    decreases |s|
  {
    if |s| > 1 {
      AsWrittenCountsAllButFirst(s[..|s| - 1]);
    }
  }

  /** One prefiltered document with similarity 0.5: the written count reports 0 hits, the
      intended count 1. */
  lemma AsWrittenMissesTheOnlyHit()
    ensures NonZeroCountAsWritten([Scored(0, 0.5)]) == 0
    ensures NonZeroCount([Scored(0, 0.5)]) == 1
  {
    assert [Scored(0, 0.5)][..0] == [];
  }

  /** The count is the number of entries exactly when no similarity is zero. */
  lemma {:induction false} NonZeroCountAll(s: seq<Scored>)
    ensures NonZeroCount(s) == |s| <==> forall k :: 0 <= k < |s| ==> s[k].score != 0.0
    decreases |s|
  {
    if s != [] {
      var init := s[..|s| - 1];
      NonZeroCountAll(init);
      assert forall k :: 0 <= k < |init| ==> s[k] == init[k];
    }
  }
}
