/**
  The posting bookkeeping of Model/Indexing/InvertedIndex.cs as values: the (term, document)
  postings Index collects, the vocabulary GetUniqueTerms derives from them, and the state
  CreateInvertedIndex reaches after processing a prefix of the postings. A posting dictionary
  (document id to DocumentValue, enumerated in insertion order, as .NET's Dictionary does
  when nothing is removed) is a sequence of entries.
*/
module Postings {
  import opened Seqs

  datatype Posting = Posting(term: string, documentId: int)

  /** A posting-dictionary entry: the term frequency of one document. */
  datatype DocumentValue = DocumentValue(documentId: int, termFrequency: int)

  /** CreatePostings' additions: one posting per token of document docId, in token order. */
  function PostingsOf(tokens: seq<string>, docId: int): (r: seq<Posting>)
    ensures |r| == |tokens|
    ensures forall k :: 0 <= k < |r| ==> r[k] == Posting(tokens[k], docId)
    decreases |tokens|
  {
    if tokens == [] then [] else PostingsOf(tokens[..|tokens| - 1], docId) + [Posting(tokens[|tokens| - 1], docId)]
  }

  /** CreatePostings: appends a posting for every token. */
  method CreatePostings(postings: seq<Posting>, tokens: seq<string>, docId: int) returns (r: seq<Posting>)
    ensures r == postings + PostingsOf(tokens, docId)
  {
    r := postings;
    for i := 0 to |tokens|
      invariant r == postings + PostingsOf(tokens[..i], docId)
    {
      assert tokens[..i + 1][..i] == tokens[..i];
      r := r + [Posting(tokens[i], docId)];
    }
    assert tokens[..|tokens|] == tokens;
  }

  /** The postings of the whole collection: document i's tokens under id i, documents in order. */
  function AllPostings(tokenLists: seq<seq<string>>): seq<Posting>
    decreases |tokenLists|
  {
    if tokenLists == [] then []
    else AllPostings(tokenLists[..|tokenLists| - 1]) + PostingsOf(tokenLists[|tokenLists| - 1], |tokenLists| - 1)
  }

  /** postings.Select(p => p.Term). */
  function Terms(postings: seq<Posting>): (r: seq<string>)
    ensures |r| == |postings|
    ensures forall k :: 0 <= k < |r| ==> r[k] == postings[k].term
    decreases |postings|
  {
    if postings == [] then [] else Terms(postings[..|postings| - 1]) + [postings[|postings| - 1].term]
  }

  /** GetUniqueTerms: the vocabulary, each term at its first appearance. */
  function UniqueTerms(postings: seq<Posting>): seq<string> {
    Distinct(Terms(postings))
  }

  /** The number of times term occurs in document d's postings: its term frequency there. */
  function Tf(postings: seq<Posting>, term: string, d: int): nat {
    multiset(postings)[Posting(term, d)]
  }

  /** Document ids never decrease along the posting list. */
  predicate InDocumentOrder(postings: seq<Posting>) {
    forall i, j :: 0 <= i < j < |postings| ==> postings[i].documentId <= postings[j].documentId
  }

  // ---------------------------------------------------------------------------
  // The collected postings

  lemma {:induction false} PostingsOfMembers(tokens: seq<string>, docId: int, t: string, d: int)
    ensures Posting(t, d) in PostingsOf(tokens, docId) <==> d == docId && t in tokens
    ensures multiset(PostingsOf(tokens, docId))[Posting(t, d)] == if d == docId then multiset(tokens)[t] else 0
    decreases |tokens|
  {
    var x := Posting(t, d);
    if tokens != [] {
      var init := tokens[..|tokens| - 1];
      var last := tokens[|tokens| - 1];
      PostingsOfMembers(init, docId, t, d);
      assert tokens == init + [last];
      MultisetSnoc(init, last, t);
      MultisetSnoc(PostingsOf(init, docId), Posting(last, docId), x);
    }
    assert x in PostingsOf(tokens, docId) <==> multiset(PostingsOf(tokens, docId))[x] > 0;
    assert t in tokens <==> multiset(tokens)[t] > 0;
  }

  lemma MultisetSnoc<T>(s: seq<T>, y: T, x: T)
    ensures multiset(s + [y])[x] == multiset(s)[x] + if x == y then 1 else 0
  {
    assert multiset(s + [y]) == multiset(s) + multiset{y};
  }

  /** A posting (t, d) is collected exactly when document d exists and t is one of its terms,
      as many times as t occurs there. */
  lemma {:induction false} AllPostingsMembers(tokenLists: seq<seq<string>>, t: string, d: int)
    ensures Posting(t, d) in AllPostings(tokenLists) <==> 0 <= d < |tokenLists| && t in tokenLists[d]
    ensures Tf(AllPostings(tokenLists), t, d) == if 0 <= d < |tokenLists| then multiset(tokenLists[d])[t] else 0
    decreases |tokenLists|
  {
    if tokenLists != [] {
      var n := |tokenLists| - 1;
      var init := tokenLists[..n];
      AllPostingsMembers(init, t, d);
      PostingsOfMembers(tokenLists[n], n, t, d);
      if 0 <= d < n {
        assert init[d] == tokenLists[d];
      }
    }
  }

  /** Every collected posting names an existing document, and documents come in order. */
  lemma {:induction false} AllPostingsOrdered(tokenLists: seq<seq<string>>)
    ensures InDocumentOrder(AllPostings(tokenLists))
    ensures forall k :: 0 <= k < |AllPostings(tokenLists)| ==> 0 <= AllPostings(tokenLists)[k].documentId < |tokenLists|
    decreases |tokenLists|
  {
    if tokenLists != [] {
      var n := |tokenLists| - 1;
      AllPostingsOrdered(tokenLists[..n]);
      var a: seq<Posting> := AllPostings(tokenLists[..n]);
      var b: seq<Posting> := PostingsOf(tokenLists[n], n);
      assert AllPostings(tokenLists) == a + b;
      forall k | 0 <= k < |a + b|
        ensures 0 <= (a + b)[k].documentId <= n
        ensures k < |a| ==> (a + b)[k].documentId < n
      {
        if k < |a| {
          assert (a + b)[k] == a[k];
        } else {
          assert (a + b)[k] == b[k - |a|];
        }
      }
    }
  }

  /** The vocabulary lists every term of every document once. */
  lemma UniqueTermsMembers(tokenLists: seq<seq<string>>, t: string)
    ensures t in UniqueTerms(AllPostings(tokenLists)) <==> exists d :: 0 <= d < |tokenLists| && t in tokenLists[d]
    ensures NoDuplicates(UniqueTerms(AllPostings(tokenLists)))
  {
    if t in UniqueTerms(AllPostings(tokenLists)) {
      VocabularyTermOccurs(tokenLists, t);
    }
    if exists d :: 0 <= d < |tokenLists| && t in tokenLists[d] {
      var d :| 0 <= d < |tokenLists| && t in tokenLists[d];
      OccurringTermInVocabulary(tokenLists, t, d);
    }
  }

  /** The membership half of AllPostingsMembers. */
  lemma PostingOccurs(tokenLists: seq<seq<string>>, t: string, d: int)
    ensures Posting(t, d) in AllPostings(tokenLists) <==> 0 <= d < |tokenLists| && t in tokenLists[d]
  {
    AllPostingsMembers(tokenLists, t, d);
  }

  lemma VocabularyTermOccurs(tokenLists: seq<seq<string>>, t: string)
    requires t in UniqueTerms(AllPostings(tokenLists))
    ensures exists d :: 0 <= d < |tokenLists| && t in tokenLists[d]
  {
    var p := AllPostings(tokenLists);
    assert t in Terms(p) by {
      var u := Distinct(Terms(p));
      var i :| 0 <= i < |u| && u[i] == t;
    }
    var d := TermPosting(p, t);
    PostingOccurs(tokenLists, t, d);
  }

  /** A listed term comes from a posting of some document. */
  lemma TermPosting(postings: seq<Posting>, t: string) returns (d: int)
    requires t in Terms(postings)
    ensures Posting(t, d) in postings
  {
    var terms := Terms(postings);
    var k :| 0 <= k < |terms| && terms[k] == t;
    d := postings[k].documentId;
    assert postings[k] == Posting(t, d);
  }

  lemma OccurringTermInVocabulary(tokenLists: seq<seq<string>>, t: string, d: int)
    requires 0 <= d < |tokenLists| && t in tokenLists[d]
    ensures t in UniqueTerms(AllPostings(tokenLists))
  {
    PostingOccurs(tokenLists, t, d);
    var p := AllPostings(tokenLists);
    var k :| 0 <= k < |p| && p[k] == Posting(t, d);
    assert Terms(p)[k] == t;
  }

  // ---------------------------------------------------------------------------
  // Posting dictionaries

  /** The position of document d's entry, or the number of entries when there is none. */
  function Find(entries: seq<DocumentValue>, d: int): (j: nat)
    ensures j <= |entries|
    ensures j < |entries| ==> entries[j].documentId == d
    ensures j == |entries| ==> forall k :: 0 <= k < |entries| ==> entries[k].documentId != d
    decreases |entries|
  {
    if entries == [] then 0
    else if entries[0].documentId == d then 0
    else 1 + Find(entries[1..], d)
  }

  /** The dictionary's keys in enumeration order. */
  function Keys(entries: seq<DocumentValue>): (r: seq<int>)
    ensures |r| == |entries|
    ensures forall k :: 0 <= k < |r| ==> r[k] == entries[k].documentId
    decreases |entries|
  {
    if entries == [] then [] else Keys(entries[..|entries| - 1]) + [entries[|entries| - 1].documentId]
  }

  /** One posting of document d for the dictionary's term: the frequency goes up by one, or a
      new entry with frequency 1 is added at the end. */
  function AddOccurrence(entries: seq<DocumentValue>, d: int): seq<DocumentValue> {
    var j := Find(entries, d);
    if j < |entries| then entries[j := DocumentValue(d, entries[j].termFrequency + 1)]
    else entries + [DocumentValue(d, 1)]
  }

  /** The posting dictionary of term after the given postings. */
  function Entries(postings: seq<Posting>, term: string): seq<DocumentValue>
    decreases |postings|
  {
    if postings == [] then []
    else
      var e := Entries(postings[..|postings| - 1], term);
      var x := postings[|postings| - 1];
      if x.term == term then AddOccurrence(e, x.documentId) else e
  }

  /** Adding an occurrence adds the document as a key exactly when it had none. */
  lemma AddOccurrenceKeys(e: seq<DocumentValue>, d: int)
    ensures Keys(AddOccurrence(e, d)) == if Find(e, d) < |e| then Keys(e) else Keys(e) + [d]
  {
    var j := Find(e, d);
    if j < |e| {
      assert Keys(AddOccurrence(e, d)) == Keys(e);
    } else {
      assert Keys(AddOccurrence(e, d)) == Keys(e) + [d];
    }
  }

  lemma NoDuplicatesSnoc(s: seq<int>, d: int)
    requires NoDuplicates(s) && d !in s
    ensures NoDuplicates(s + [d])
    ensures forall y :: y in s + [d] <==> y in s || y == d
  {
  }

  /** A term's dictionary holds one entry per document with the term. */
  lemma {:induction false} EntriesKeys(postings: seq<Posting>, term: string)
    ensures NoDuplicates(Keys(Entries(postings, term)))
    ensures forall d :: d in Keys(Entries(postings, term)) <==> Posting(term, d) in postings
    decreases |postings|
  {
    if postings != [] {
      var init := postings[..|postings| - 1];
      var x := postings[|postings| - 1];
      var e := Entries(init, term);
      EntriesKeys(init, term);
      assert postings == init + [x];
      if x.term == term {
        AddOccurrenceKeys(e, x.documentId);
        if Find(e, x.documentId) == |e| {
          assert x.documentId !in Keys(e);
          NoDuplicatesSnoc(Keys(e), x.documentId);
        }
      }
    }
  }

  /** Each entry carries the number of postings of its document for the term. */
  lemma {:induction false} EntriesTf(postings: seq<Posting>, term: string)
    ensures forall j :: 0 <= j < |Entries(postings, term)| ==>
      Entries(postings, term)[j].termFrequency == Tf(postings, term, Entries(postings, term)[j].documentId) >= 1
    decreases |postings|
  {
    if postings != [] {
      var init := postings[..|postings| - 1];
      var x := postings[|postings| - 1];
      var e := Entries(init, term);
      var r := Entries(postings, term);
      EntriesTf(init, term);
      EntriesKeys(init, term);
      assert postings == init + [x];
      assert multiset(postings) == multiset(init) + multiset{x};
      if x.term == term {
        var j0 := Find(e, x.documentId);
        forall j | 0 <= j < |r|
          ensures r[j].termFrequency == Tf(postings, term, r[j].documentId) >= 1
        {
          if j < |e| && j != j0 {
            assert r[j] == e[j];
            if j0 < |e| {
              assert Keys(e)[j] != Keys(e)[j0];
            }
          } else if j0 == |e| && j == |e| {
            assert x.documentId !in Keys(e);
            assert Posting(term, x.documentId) !in init;
          }
        }
      }
    }
  }

  /** With postings in document order, a dictionary's keys are ascending. */
  lemma {:induction false} EntriesAscending(postings: seq<Posting>, term: string)
    requires InDocumentOrder(postings)
    ensures Ascending(Keys(Entries(postings, term)))
    decreases |postings|
  {
    if postings != [] {
      var init := postings[..|postings| - 1];
      var x := postings[|postings| - 1];
      var e := Entries(init, term);
      EntriesAscending(init, term);
      if x.term == term {
        AddOccurrenceKeys(e, x.documentId);
        if Find(e, x.documentId) == |e| {
          assert postings == init + [x];
          KeysBelowLater(init, x, term);
          forall k | 0 <= k < |e|
            ensures Keys(e)[k] < x.documentId
          {
            assert Keys(e)[k] in Keys(e);
          }
          AscendingSnoc(Keys(e), x.documentId);
        }
      }
    }
  }

  lemma AscendingSnoc(s: seq<int>, d: int)
    requires Ascending(s) && forall k :: 0 <= k < |s| ==> s[k] < d
    ensures Ascending(s + [d])
  {
  }

  /** Every key of the dictionary before the last posting is at most that posting's document. */
  lemma KeysBelowLater(init: seq<Posting>, x: Posting, term: string)
    requires InDocumentOrder(init + [x])
    ensures forall d :: d in Keys(Entries(init, term)) ==> d <= x.documentId
  {
    var postings := init + [x];
    EntriesKeys(init, term);
    forall d | d in Keys(Entries(init, term))
      ensures d <= x.documentId
    {
      var i :| 0 <= i < |init| && init[i] == Posting(term, d);
      assert postings[i] == init[i] && postings[|init|] == x;
    }
  }

  /** A term's document frequency, the size of its dictionary, is the number of documents
      that contain it. */
  lemma DocumentFrequencyCounts(tokenLists: seq<seq<string>>, term: string)
    ensures |Entries(AllPostings(tokenLists), term)| == |set d | 0 <= d < |tokenLists| && term in tokenLists[d]|
  {
    var p := AllPostings(tokenLists);
    var keys := Keys(Entries(p, term));
    EntriesKeys(p, term);
    var s := set d | 0 <= d < |tokenLists| && term in tokenLists[d];
    forall d
      ensures d in keys <==> d in s
    {
      AllPostingsMembers(tokenLists, term, d);
    }
    DistinctCardinality(keys);
    assert (set k | k in keys) == s;
  }

  /** A term's dictionary over the postings of a collection: ascending keys, one entry per
      document that contains the term, each carrying the number of its occurrences there. */
  lemma TermEntries(tokenLists: seq<seq<string>>, term: string)
    ensures Ascending(Keys(Entries(AllPostings(tokenLists), term)))
    ensures NoDuplicates(Keys(Entries(AllPostings(tokenLists), term)))
    ensures forall d :: d in Keys(Entries(AllPostings(tokenLists), term)) <==> 0 <= d < |tokenLists| && term in tokenLists[d]
    ensures forall j :: 0 <= j < |Entries(AllPostings(tokenLists), term)| ==>
      0 <= Entries(AllPostings(tokenLists), term)[j].documentId < |tokenLists| &&
      Entries(AllPostings(tokenLists), term)[j].termFrequency == multiset(tokenLists[Entries(AllPostings(tokenLists), term)[j].documentId])[term]
    ensures |Entries(AllPostings(tokenLists), term)| == |set d | 0 <= d < |tokenLists| && term in tokenLists[d]|
  {
    var p := AllPostings(tokenLists);
    var e := Entries(p, term);
    AllPostingsOrdered(tokenLists);
    EntriesAscending(p, term);
    EntriesKeys(p, term);
    EntriesTf(p, term);
    forall d
      ensures d in Keys(e) <==> 0 <= d < |tokenLists| && term in tokenLists[d]
    {
      AllPostingsMembers(tokenLists, term, d);
    }
    forall j | 0 <= j < |e|
      ensures 0 <= e[j].documentId < |tokenLists|
      ensures e[j].termFrequency == multiset(tokenLists[e[j].documentId])[term]
    {
      assert Keys(e)[j] == e[j].documentId;
      AllPostingsMembers(tokenLists, term, e[j].documentId);
    }
    DocumentFrequencyCounts(tokenLists, term);
  }

  lemma {:induction false} DistinctCardinality<T>(s: seq<T>)
    requires NoDuplicates(s)
    ensures |set k | k in s| == |s|
    decreases |s|
  {
    if s != [] {
      var init := s[..|s| - 1];
      DistinctCardinality(init);
      assert s == init + [s[|s| - 1]];
      assert (set k | k in s) == (set k | k in init) + {s[|s| - 1]};
    }
  }

  // ---------------------------------------------------------------------------
  // Per-document term lists

  /** The term ids of document d, each once, in the order of their first posting. */
  function DocTermIds(postings: seq<Posting>, d: int, termIds: map<string, int>): seq<int>
    requires forall k :: 0 <= k < |postings| ==> postings[k].term in termIds
    decreases |postings|
  {
    if postings == [] then []
    else
      var r := DocTermIds(postings[..|postings| - 1], d, termIds);
      var x := postings[|postings| - 1];
      if x.documentId == d && termIds[x.term] !in r then r + [termIds[x.term]] else r
  }

  predicate Injective(termIds: map<string, int>) {
    forall s, t :: s in termIds && t in termIds && s != t ==> termIds[s] != termIds[t]
  }

  /** TermIdMap and IdTermMap are inverse: terms are numbered by their position. */
  ghost predicate Vocabulary(termIdMap: map<string, int>, terms: seq<string>) {
    NoDuplicates(terms) &&
    (forall t :: t in termIdMap <==> t in terms) &&
    (forall i :: 0 <= i < |terms| ==> terms[i] in termIdMap && termIdMap[terms[i]] == i)
  }

  lemma VocabularyInverse(termIdMap: map<string, int>, terms: seq<string>)
    requires Vocabulary(termIdMap, terms)
    ensures forall t :: t in termIdMap ==> 0 <= termIdMap[t] < |terms| && terms[termIdMap[t]] == t
    ensures Injective(termIdMap)
  {
    forall t | t in termIdMap
      ensures 0 <= termIdMap[t] < |terms| && terms[termIdMap[t]] == t
    {
      var i :| 0 <= i < |terms| && terms[i] == t;
    }
  }

  /** A document's term-id list has no repeats and holds exactly the ids of its terms. */
  lemma {:induction false} DocTermIdsMeaning(postings: seq<Posting>, d: int, termIds: map<string, int>)
    requires forall k :: 0 <= k < |postings| ==> postings[k].term in termIds
    requires Injective(termIds)
    ensures NoDuplicates(DocTermIds(postings, d, termIds))
    ensures forall t :: t in termIds ==> (termIds[t] in DocTermIds(postings, d, termIds) <==> Posting(t, d) in postings)
    ensures forall i :: i in DocTermIds(postings, d, termIds) ==> exists t :: t in termIds && termIds[t] == i
    decreases |postings|
  {
    if postings != [] {
      var init := postings[..|postings| - 1];
      var x := postings[|postings| - 1];
      DocTermIdsMeaning(init, d, termIds);
      assert postings == init + [x];
    }
  }

  /** The entries of document d's term list, in lockstep with its term ids: the same
      DocumentValue the term's posting dictionary holds for d. */
  function DocTermValues(postings: seq<Posting>, d: int, ids: seq<int>, terms: seq<string>): (r: seq<DocumentValue>)
    ensures |r| == |ids|
  {
    seq(|ids|, i requires 0 <= i < |ids| => DocumentValue(d, if 0 <= ids[i] < |terms| then Tf(postings, terms[ids[i]], d) else 0))
  }

  // ---------------------------------------------------------------------------
  // One posting at a time: the steps of CreateInvertedIndex

  lemma EntriesStep(postings: seq<Posting>, x: Posting, term: string)
    ensures Entries(postings + [x], term) == if x.term == term then AddOccurrence(Entries(postings, term), x.documentId) else Entries(postings, term)
  {
    assert (postings + [x])[..|postings|] == postings;
  }

  lemma DocTermIdsStep(postings: seq<Posting>, x: Posting, d: int, termIds: map<string, int>)
    requires forall k :: 0 <= k < |postings| ==> postings[k].term in termIds
    requires x.term in termIds
    ensures forall k :: 0 <= k < |postings + [x]| ==> (postings + [x])[k].term in termIds
    ensures DocTermIds(postings + [x], d, termIds) ==
      if x.documentId == d && termIds[x.term] !in DocTermIds(postings, d, termIds)
      then DocTermIds(postings, d, termIds) + [termIds[x.term]]
      else DocTermIds(postings, d, termIds)
  {
    assert (postings + [x])[..|postings|] == postings;
  }

  lemma TfStep(postings: seq<Posting>, x: Posting, term: string, d: int)
    ensures Tf(postings + [x], term, d) == Tf(postings, term, d) + if x == Posting(term, d) then 1 else 0
  {
    assert multiset(postings + [x]) == multiset(postings) + multiset{x};
  }

  /** A posting of another document leaves d's term list values alone. */
  lemma DocTermValuesOther(postings: seq<Posting>, x: Posting, d: int, ids: seq<int>, terms: seq<string>)
    requires x.documentId != d
    ensures DocTermValues(postings + [x], d, ids, terms) == DocTermValues(postings, d, ids, terms)
  {
    forall i | 0 <= i < |ids| && 0 <= ids[i] < |terms|
      ensures Tf(postings + [x], terms[ids[i]], d) == Tf(postings, terms[ids[i]], d)
    {
      TfStep(postings, x, terms[ids[i]], d);
    }
  }

  /** A further posting of a term the document already has raises that entry by one. */
  lemma DocTermValuesSeen(postings: seq<Posting>, x: Posting, ids: seq<int>, terms: seq<string>, pos: nat)
    requires pos < |ids| && 0 <= ids[pos] < |terms| && terms[ids[pos]] == x.term
    requires forall i :: 0 <= i < |ids| && i != pos && 0 <= ids[i] < |terms| ==> terms[ids[i]] != x.term
    ensures DocTermValues(postings + [x], x.documentId, ids, terms) ==
      DocTermValues(postings, x.documentId, ids, terms)[pos := DocumentValue(x.documentId, Tf(postings, x.term, x.documentId) + 1)]
  {
    var d := x.documentId;
    forall i | 0 <= i < |ids| && 0 <= ids[i] < |terms|
      ensures Tf(postings + [x], terms[ids[i]], d) == Tf(postings, terms[ids[i]], d) + if i == pos then 1 else 0
    {
      TfStep(postings, x, terms[ids[i]], d);
    }
  }

  /** The first posting of a term in a document appends an entry with frequency 1. */
  lemma DocTermValuesNew(postings: seq<Posting>, x: Posting, ids: seq<int>, terms: seq<string>, termId: int)
    requires 0 <= termId < |terms| && terms[termId] == x.term
    requires forall i :: 0 <= i < |ids| && 0 <= ids[i] < |terms| ==> terms[ids[i]] != x.term
    requires Posting(x.term, x.documentId) !in postings
    ensures DocTermValues(postings + [x], x.documentId, ids + [termId], terms) ==
      DocTermValues(postings, x.documentId, ids, terms) + [DocumentValue(x.documentId, 1)]
  {
    var d := x.documentId;
    forall i | 0 <= i < |ids| && 0 <= ids[i] < |terms|
      ensures Tf(postings + [x], terms[ids[i]], d) == Tf(postings, terms[ids[i]], d)
    {
      TfStep(postings, x, terms[ids[i]], d);
    }
    TfStep(postings, x, x.term, d);
  }

  // ---------------------------------------------------------------------------
  // The per-document arrays indexed by document id

  /** Some posting names a document at or past the end of an array of the given length. */
  predicate Overflows(postings: seq<Posting>, length: int) {
    exists k :: 0 <= k < |postings| && postings[k].documentId >= length
  }

  /** Arrays with one slot per document never overflow. */
  lemma NoOverflowWithSlotPerDocument(tokenLists: seq<seq<string>>)
    ensures !Overflows(AllPostings(tokenLists), |tokenLists|)
  {
    AllPostingsOrdered(tokenLists);
  }

  /** Arrays with one slot per vocabulary term overflow on two documents that share their only
      term: the second document's id, 1, is past the single slot. */
  lemma VocabularySizedArraysOverflow()
    ensures |UniqueTerms(AllPostings([["a"], ["a"]]))| == 1
    ensures Overflows(AllPostings([["a"], ["a"]]), |UniqueTerms(AllPostings([["a"], ["a"]]))|)
  {
    var p := AllPostings([["a"], ["a"]]);
    SharedTermPostings();
    SingleTermVocabulary(p);
    assert p[1].documentId >= 1;
  }

  /** The overflow is decided by the postings, not by the number of documents: a document
      without tokens has no postings, so its id never indexes the arrays, even when it is not
      below the vocabulary size. */
  lemma TokenlessDocumentDoesNotOverflow()
    ensures |UniqueTerms(AllPostings([["a"], []]))| == 1
    ensures !Overflows(AllPostings([["a"], []]), |UniqueTerms(AllPostings([["a"], []]))|)
  {
    var tl: seq<seq<string>> := [["a"], []];
    assert tl[..1] == [["a"]];
    assert tl[..1][..0] == [];
    assert ["a"][..0] == [];
    assert PostingsOf(["a"], 0) == [Posting("a", 0)];
    assert AllPostings(tl) == [Posting("a", 0)];
    assert Terms([Posting("a", 0)]) == ["a"];
    assert Terms([Posting("a", 0)])[..0] == [];
    assert Distinct(["a"]) == ["a"];
  }

  /** Two one-word documents sharing the word give two postings, one per document. */
  lemma SharedTermPostings()
    ensures AllPostings([["a"], ["a"]]) == [Posting("a", 0), Posting("a", 1)]
  {
    var tl: seq<seq<string>> := [["a"], ["a"]];
    assert tl[..1] == [["a"]];
    assert tl[..1][..0] == [];
    assert ["a"][..0] == [];
    assert PostingsOf(["a"], 0) == [Posting("a", 0)];
    assert PostingsOf(["a"], 1) == [Posting("a", 1)];
    assert AllPostings(tl[..1]) == [Posting("a", 0)];
  }

  /** Postings of one term have a one-term vocabulary. */
  lemma SingleTermVocabulary(p: seq<Posting>)
    requires p == [Posting("a", 0), Posting("a", 1)]
    ensures |UniqueTerms(p)| == 1
  {
    assert Terms(p) == ["a", "a"];
    assert Terms(p)[..1] == ["a"];
    assert Terms(p)[..1][..0] == [];
    assert Distinct(["a"]) == ["a"];
  }
}
