/**
  Boolean retrieval over a parse tree (GetDocumentsForQuery and GetDocumentsForTerm of
  Model/Indexing/InvertedIndex.cs) as functions of the index's lookup data, with the LINQ
  list operations it relies on.
*/
module QueryEvaluation {
  import opened Seqs
  import opened Documents
  import opened BooleanQueryParser

  // ---------------------------------------------------------------------------
  // LINQ set operations on id lists

  /** The elements of s whose membership in b is the given one, in order. */
  function Where(s: seq<int>, b: seq<int>, member: bool): (r: seq<int>)
    ensures forall x :: x in r <==> x in s && (x in b <==> member)
    ensures NoDuplicates(s) ==> NoDuplicates(r)
    decreases |s|
  {
    if s == [] then []
    else
      var init := s[..|s| - 1];
      var x := s[|s| - 1];
      assert s == init + [x];
      Where(init, b, member) + (if (x in b) == member then [x] else [])
  }

  /** a.Except(b): the distinct elements of a that are not in b, in order of a. */
  function Except(a: seq<int>, b: seq<int>): (r: seq<int>)
    ensures NoDuplicates(r)
    ensures forall x :: x in r <==> x in a && x !in b
  {
    var d := Distinct(a);
    assert forall x :: x in d <==> x in a by {
      forall x ensures x in d <==> x in a {
        if x in a {
          var k :| 0 <= k < |a| && a[k] == x;
        }
      }
    }
    Where(d, b, false)
  }

  /** a.Intersect(b): the distinct elements of a that are in b, in order of a. */
  function Intersect(a: seq<int>, b: seq<int>): (r: seq<int>)
    ensures NoDuplicates(r)
    ensures forall x :: x in r <==> x in a && x in b
  {
    var d := Distinct(a);
    assert forall x :: x in d <==> x in a by {
      forall x ensures x in d <==> x in a {
        if x in a {
          var k :| 0 <= k < |a| && a[k] == x;
        }
      }
    }
    Where(d, b, true)
  }

  /** a.Union(b): the distinct elements of a, then those of b, in order. */
  function Union(a: seq<int>, b: seq<int>): (r: seq<int>)
    ensures NoDuplicates(r)
    ensures forall x :: x in r <==> x in a || x in b
  {
    var d := Distinct(a + b);
    assert forall x :: x in d <==> x in a + b by {
      forall x ensures x in d <==> x in a + b {
        if x in a + b {
          var k :| 0 <= k < |a + b| && (a + b)[k] == x;
        }
      }
    }
    d
  }

  // ---------------------------------------------------------------------------
  // Evaluation

  /** What term lookup sees of the index: the analyzer (Preprocess applied to a document), the
      term-to-id dictionary and, per term id, the keys of its posting dictionary. */
  datatype Lookup = Lookup(analyze: Document -> seq<string>, termIdMap: map<string, int>, postingKeys: seq<seq<int>>)
  {
    predicate Valid() {
      (forall t :: t in termIdMap ==> 0 <= termIdMap[t] < |postingKeys|) &&
      (forall i :: 0 <= i < |postingKeys| ==> NoDuplicates(postingKeys[i]))
    }
  }

  /** GetDocumentsForTerm: the posting keys of the term's first preprocessed token; nothing
      when preprocessing leaves no token or the token is not in the vocabulary. */
  function TermDocs(lookup: Lookup, term: string): (r: seq<int>)
    requires lookup.Valid()
    ensures NoDuplicates(r)
  {
    var res := lookup.analyze(Plain(term));
    if |res| == 0 then []
    else if res[0] !in lookup.termIdMap then []
    else lookup.postingKeys[lookup.termIdMap[res[0]]]
  }

  /** GetDocumentsForQuery. Nodes are dispatched on their type: a TERM node (a literal, or
      the node built for an unmatched parenthesis) is looked up by its text, NOT takes the
      complement of its operand within allIds, AND and OR combine their operands, and both
      return nothing at once when both operands are empty. */
  function Eval(lookup: Lookup, allIds: seq<int>, n: ParserNode): seq<int>
    requires lookup.Valid() && WellTyped(n)
  {
    match n
    case Leaf(t) => TermDocs(lookup, t)
    case Unary(_, c) => Except(allIds, Eval(lookup, allIds, c))
    case Binary(t, l, r) =>
      if TypeOf(t) == TERM then TermDocs(lookup, t)
      else
        var left := Eval(lookup, allIds, l);
        var right := Eval(lookup, allIds, r);
        if |left| == 0 && |right| == 0 then []
        else if TypeOf(t) == AND then Intersect(left, right)
        else Union(left, right)
  }

  /** The documents a query node matches, as a set-algebra reference: term postings,
      complement within allIds, intersection and union. */
  predicate Matches(lookup: Lookup, allIds: seq<int>, n: ParserNode, d: int)
    requires lookup.Valid() && WellTyped(n)
  {
    match n
    case Leaf(t) => d in TermDocs(lookup, t)
    case Unary(_, c) => d in allIds && !Matches(lookup, allIds, c, d)
    case Binary(t, l, r) =>
      if TypeOf(t) == TERM then d in TermDocs(lookup, t)
      else if TypeOf(t) == AND then Matches(lookup, allIds, l, d) && Matches(lookup, allIds, r, d)
      else Matches(lookup, allIds, l, d) || Matches(lookup, allIds, r, d)
  }

  /** Evaluation returns each matching document exactly once, whatever the tree; the shortcut
      for two empty operands changes nothing. */
  lemma {:induction false} EvalMatches(lookup: Lookup, allIds: seq<int>, n: ParserNode)
    requires lookup.Valid() && WellTyped(n)
    ensures NoDuplicates(Eval(lookup, allIds, n))
    ensures forall d :: d in Eval(lookup, allIds, n) <==> Matches(lookup, allIds, n, d)
  {
    match n
    case Leaf(t) =>
    case Unary(_, c) =>
      EvalMatches(lookup, allIds, c);
    case Binary(t, l, r) =>
      if TypeOf(t) != TERM {
        EvalMatches(lookup, allIds, l);
        EvalMatches(lookup, allIds, r);
      }
  }

  /** Results lie within the ids of the collection when the postings do. */
  lemma {:induction false} EvalWithin(lookup: Lookup, allIds: seq<int>, n: ParserNode)
    requires lookup.Valid() && WellTyped(n)
    requires forall i, d :: 0 <= i < |lookup.postingKeys| && d in lookup.postingKeys[i] ==> d in allIds
    ensures forall d :: d in Eval(lookup, allIds, n) ==> d in allIds
  {
    EvalMatches(lookup, allIds, n);
    forall d | d in Eval(lookup, allIds, n)
      ensures d in allIds
    {
      MatchesWithin(lookup, allIds, n, d);
    }
  }

  lemma {:induction false} MatchesWithin(lookup: Lookup, allIds: seq<int>, n: ParserNode, d: int)
    requires lookup.Valid() && WellTyped(n)
    requires forall i, d :: 0 <= i < |lookup.postingKeys| && d in lookup.postingKeys[i] ==> d in allIds
    requires Matches(lookup, allIds, n, d)
    ensures d in allIds
  {
    match n
    case Leaf(t) =>
    case Unary(_, c) =>
    case Binary(t, l, r) =>
      if TypeOf(t) == AND {
        MatchesWithin(lookup, allIds, l, d);
      } else if TypeOf(t) == OR {
        if Matches(lookup, allIds, l, d) {
          MatchesWithin(lookup, allIds, l, d);
        } else {
          MatchesWithin(lookup, allIds, r, d);
        }
      }
  }

  /** NOT NOT q matches what q matches within the collection. */
  lemma DoubleNegation(lookup: Lookup, allIds: seq<int>, q: ParserNode, d: int)
    requires lookup.Valid() && WellTyped(q)
    ensures Matches(lookup, allIds, Unary("NOT", Unary("NOT", q)), d) <==> d in allIds && Matches(lookup, allIds, q, d)
  {
  }

  // ---------------------------------------------------------------------------
  // Sorting (List<int>.Sort)

  predicate NonDecreasing(s: seq<int>) {
    forall i, j :: 0 <= i < j < |s| ==> s[i] <= s[j]
  }

  function Insert(x: int, s: seq<int>): (r: seq<int>)
    ensures multiset(r) == multiset(s) + multiset{x}
    decreases |s|
  {
    if s == [] then [x]
    else if x <= s[0] then [x] + s
    else
      assert s == [s[0]] + s[1..];
      [s[0]] + Insert(x, s[1..])
  }

  lemma {:induction false} InsertSorted(x: int, s: seq<int>)
    requires NonDecreasing(s)
    ensures NonDecreasing(Insert(x, s))
    decreases |s|
  {
    if s != [] && x > s[0] {
      var rest := Insert(x, s[1..]);
      InsertSorted(x, s[1..]);
      forall k | 0 <= k < |rest|
        ensures s[0] <= rest[k]
      {
        assert rest[k] in multiset(rest);
        assert rest[k] in multiset(s[1..]) || rest[k] == x;
        if rest[k] != x {
          var m :| 0 <= m < |s[1..]| && s[1..][m] == rest[k];
          assert s[m + 1] == rest[k];
        }
      }
    }
  }

  /** List<int>.Sort: the ids in ascending order. */
  function Sort(s: seq<int>): (r: seq<int>)
    ensures NonDecreasing(r)
    ensures multiset(r) == multiset(s)
    decreases |s|
  {
    if s == [] then []
    else
      assert s == s[..|s| - 1] + [s[|s| - 1]];
      InsertSorted(s[|s| - 1], Sort(s[..|s| - 1]));
      Insert(s[|s| - 1], Sort(s[..|s| - 1]))
  }

  /** Sorting duplicate-free ids lists each of them once, strictly ascending. */
  lemma SortDistinct(s: seq<int>)
    requires NoDuplicates(s)
    ensures Ascending(Sort(s))
    ensures forall x :: x in Sort(s) <==> x in s
  {
    var r := Sort(s);
    forall x
      ensures x in r <==> x in s
    {
      assert x in r <==> x in multiset(r);
      assert x in s <==> x in multiset(s);
    }
    forall i, j | 0 <= i < j < |r|
      ensures r[i] < r[j]
    {
      if r[i] == r[j] {
        MultisetCountIsOne(s, r[i]);
        MultisetCountAtLeastTwo(r, i, j);
      }
    }
  }

  lemma {:induction false} MultisetCountIsOne(s: seq<int>, x: int)
    requires NoDuplicates(s)
    ensures multiset(s)[x] <= 1
    decreases |s|
  {
    if s != [] {
      var init := s[..|s| - 1];
      MultisetCountIsOne(init, x);
      assert s == init + [s[|s| - 1]];
      if s[|s| - 1] == x {
        assert x !in init;
      }
    }
  }

  lemma {:induction false} MultisetCountAtLeastTwo(s: seq<int>, i: nat, j: nat)
    requires i < j < |s| && s[i] == s[j]
    ensures multiset(s)[s[i]] >= 2
  {
    assert s == s[..i] + [s[i]] + s[i + 1..j] + [s[j]] + s[j + 1..];
  }
}
