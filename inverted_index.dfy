/**
  The inverted index of Model/Indexing/InvertedIndex.cs. Index collects the postings of a
  document collection, numbers the vocabulary, and builds the term-to-documents dictionaries
  (DocumentIndex) together with the per-document term lists (DocumentTermIdList and
  DocumentTermList) that vector-space search reads. The searches read these structures.

  The analyzer is the function `analyze` (Preprocess, see the Analysis module) and
  `tokenize` (its Tokenize). Both are fixed when the index is created.
*/
module InvertedIndexing {
  import opened Wrappers
  import opened Seqs
  import opened Documents
  import opened BooleanQueryParser
  import opened Postings
  import opened QueryEvaluation
  import opened IndexSearch

  /** InvertedIndexValue: the posting dictionary of one term and its document frequency. */
  datatype IndexValue = IndexValue(documents: seq<DocumentValue>, documentFrequency: int)

  /** The exceptions the index raises. */
  datatype IndexError =
    | AlreadyIndexed          // InvalidOperationException: Index called twice
    | IndexOutOfRange         // IndexOutOfRangeException from the per-document arrays
    | NonExistentDocument     // InvalidOperationException from GetDocumentsByIds
    | ArgumentOutOfRange      // ArgumentOutOfRangeException from a negative list index
    | QueryError(error: ParseError)

  /** BasicQuery: the query text and how many results to return (-1: all of them). The
      searches never change the text, so it is fixed at creation; a search may set TopCount. */
  class BasicQuery {
    const queryText: string
    var topCount: int

    /** An object initializer setting both properties. */
    constructor (queryText: string, topCount: int)
      ensures this.queryText == queryText && this.topCount == topCount
    {
      this.queryText := queryText;
      this.topCount := topCount;
    }
  }

  /** The analyzed token lists of the documents, document i's at position i. */
  function TokenLists(analyze: Document -> seq<string>, docs: seq<Document>): (r: seq<seq<string>>)
    ensures |r| == |docs| && forall i :: 0 <= i < |docs| ==> r[i] == analyze(docs[i])
  {
    seq(|docs|, i requires 0 <= i < |docs| => analyze(docs[i]))
  }

  /** One more document adds its own postings, under its position, to those of the earlier ones. */
  lemma CollectStep(analyze: Document -> seq<string>, docs: seq<Document>, i: nat)
    requires i < |docs|
    ensures docs[..i + 1] == docs[..i] + [docs[i]]
    ensures AllPostings(TokenLists(analyze, docs[..i + 1])) ==
      AllPostings(TokenLists(analyze, docs[..i])) + PostingsOf(analyze(docs[i]), i)
  {
    var next := TokenLists(analyze, docs[..i + 1]);
    assert next[..i] == TokenLists(analyze, docs[..i]);
  }

  /** What processing the postings p builds, on values: the dictionary of every term, and for
      every document slot its term ids and the matching dictionary entries in lockstep. */
  ghost predicate Built(p: seq<Posting>, termIdMap: map<string, int>, terms: seq<string>,
                        dicts: seq<IndexValue>, idLists: seq<seq<int>>, valueLists: seq<seq<DocumentValue>>)
  {
    (forall k :: 0 <= k < |p| ==> p[k].term in termIdMap) &&
    |dicts| == |terms| && |valueLists| == |idLists| &&
    !Overflows(p, |idLists|) &&
    (forall t :: 0 <= t < |dicts| ==> dicts[t].documents == Entries(p, terms[t])) &&
    (forall d :: 0 <= d < |idLists| ==> idLists[d] == DocTermIds(p, d, termIdMap)) &&
    (forall d :: 0 <= d < |valueLists| ==> valueLists[d] == DocTermValues(p, d, idLists[d], terms))
  }

  /** A term's dictionary built from all the postings: its entries in ascending document order,
      one for each document that contains the term, with that document's count of it. */
  lemma DictionaryContents(analyze: Document -> seq<string>, documents: seq<Document>, term: string, v: IndexValue)
    requires v.documents == Entries(AllPostings(TokenLists(analyze, documents)), term)
    requires v.documentFrequency == |v.documents|
    ensures Ascending(Keys(v.documents))
    ensures forall d :: d in Keys(v.documents) <==> 0 <= d < |documents| && term in analyze(documents[d])
    ensures forall j :: 0 <= j < |v.documents| ==>
      0 <= v.documents[j].documentId < |documents| &&
      v.documents[j].termFrequency == multiset(analyze(documents[v.documents[j].documentId]))[term]
    ensures v.documentFrequency == |set d | 0 <= d < |documents| && term in analyze(documents[d])|
  {
    var tl := TokenLists(analyze, documents);
    TermEntries(tl, term);
    assert (set d | 0 <= d < |tl| && term in tl[d]) == (set d | 0 <= d < |documents| && term in analyze(documents[d]));
  }

  /** Entry i of document d's list sits in the dictionary of the term the document's id list
      names at the same position. */
  lemma DocumentEntryIndexed(p: seq<Posting>, termIdMap: map<string, int>, terms: seq<string>,
                             dicts: seq<IndexValue>, idLists: seq<seq<int>>, valueLists: seq<seq<DocumentValue>>,
                             d: int, i: int)
    requires Built(p, termIdMap, terms, dicts, idLists, valueLists)
    requires terms == UniqueTerms(p) && Vocabulary(termIdMap, terms)
    requires 0 <= d < |valueLists| && 0 <= i < |valueLists[d]|
    ensures |idLists[d]| == |valueLists[d]|
    ensures 0 <= idLists[d][i] < |dicts|
    ensures valueLists[d][i].documentId == d
    ensures valueLists[d][i] in dicts[idLists[d][i]].documents
  {
    var ids := idLists[d];
    VocabularyInverse(termIdMap, terms);
    DocTermIdsMeaning(p, d, termIdMap);
    var t := ids[i];
    assert t in ids;
    var term := terms[t];
    assert termIdMap[term] == t;
    var e := Entries(p, term);
    EntriesKeys(p, term);
    EntriesTf(p, term);
    assert d in Keys(e);
    var j :| 0 <= j < |e| && Keys(e)[j] == d;
    assert e[j] == DocumentValue(d, Tf(p, term, d));
  }

  /** The dictionaries after one posting: its document's entry in its term's dictionary goes up
      by one or is added. */
  function DictsAfter(x: Posting, termIdMap: map<string, int>, dicts: seq<IndexValue>): seq<IndexValue>
    requires x.term in termIdMap && 0 <= termIdMap[x.term] < |dicts|
  {
    var v := dicts[termIdMap[x.term]];
    dicts[termIdMap[x.term] := IndexValue(AddOccurrence(v.documents, x.documentId), v.documentFrequency)]
  }

  /** The term-id lists after one posting: the term's id is added to its document's list once. */
  function IdsAfter(x: Posting, termIdMap: map<string, int>, idLists: seq<seq<int>>): seq<seq<int>>
    requires x.term in termIdMap && 0 <= x.documentId < |idLists|
  {
    var d := x.documentId;
    if termIdMap[x.term] in idLists[d] then idLists else idLists[d := idLists[d] + [termIdMap[x.term]]]
  }

  /** The term lists after one posting: the entry beside the term's id goes up by one, or a new
      entry with frequency 1 is added. */
  function ValuesAfter(x: Posting, termIdMap: map<string, int>, idLists: seq<seq<int>>, valueLists: seq<seq<DocumentValue>>): seq<seq<DocumentValue>>
    requires x.term in termIdMap && 0 <= x.documentId < |idLists| == |valueLists|
    requires |idLists[x.documentId]| == |valueLists[x.documentId]|
  {
    var d := x.documentId;
    var pos := Position(idLists[d], termIdMap[x.term]);
    if pos < |idLists[d]| then valueLists[d := valueLists[d][pos := DocumentValue(d, valueLists[d][pos].termFrequency + 1)]]
    else valueLists[d := valueLists[d] + [DocumentValue(d, 1)]]
  }

  /** The key lists of the posting dictionaries, by term id. */
  function PostingKeys(values: seq<IndexValue>): (r: seq<seq<int>>)
    ensures |r| == |values| && forall i :: 0 <= i < |values| ==> r[i] == Keys(values[i].documents)
  {
    seq(|values|, i requires 0 <= i < |values| => Keys(values[i].documents))
  }

  class InvertedIndex {
    var indexed: bool
    const analyze: Document -> seq<string>
    const tokenize: string -> seq<string>
    const name: string
    /** Documents: the indexed documents; a document's id is its position. */
    var documents: seq<Document>
    var documentIds: seq<int>
    var documentTermIdList: array<seq<int>>
    var documentTermList: array<seq<DocumentValue>>
    var documentIndex: array<IndexValue>
    var termIdMap: map<string, int>
    var idTermMap: array<string>

    ghost function Repr(): set<object>
      reads this
    {
      {this, documentTermIdList, documentTermList, documentIndex, idTermMap}
    }

    /** The structures hold what CreateInvertedIndex builds from the postings p: each term's
        dictionary, and each document's term ids with the matching dictionary entries in
        lockstep (the source shares these DocumentValue objects between both places). */
    ghost predicate Processed(p: seq<Posting>)
      reads Repr()
    {
      Built(p, termIdMap, idTermMap[..], documentIndex[..], documentTermIdList[..], documentTermList[..])
    }

    /** The postings of the indexed documents. */
    ghost function AllDocumentPostings(): seq<Posting>
      reads this
    {
      AllPostings(TokenLists(analyze, documents))
    }

    /** The index describes its documents: ids are positions, the vocabulary is numbered in
        order of first appearance, and every structure is built from all the postings with
        document frequencies filled in. */
    ghost predicate Valid()
      reads Repr()
    {
      var p := AllDocumentPostings();
      documentIds == Range(0, |documents|) &&
      (!indexed ==> documents == []) &&
      idTermMap[..] == UniqueTerms(p) &&
      Vocabulary(termIdMap, idTermMap[..]) &&
      Processed(p) &&
      (forall t :: 0 <= t < documentIndex.Length ==> documentIndex[t].documentFrequency == |documentIndex[t].documents|)
    }

    constructor (analyze: Document -> seq<string>, tokenize: string -> seq<string>, name: string)
      ensures Valid() && !indexed && documents == []
      ensures this.analyze == analyze && this.tokenize == tokenize && this.name == name
    {
      this.analyze := analyze;
      this.tokenize := tokenize;
      this.name := name;
      indexed := false;
      documents := [];
      documentIds := [];
      termIdMap := map[];
      documentTermIdList := new seq<int>[0];
      documentTermList := new seq<DocumentValue>[0];
      documentIndex := new IndexValue[0];
      idTermMap := new string[0];
      new;
      assert AllDocumentPostings() == [];
    }

    // -------------------------------------------------------------------------
    // Indexing

    /** Index with the per-document arrays given one slot per document: it succeeds on any
        collection and leaves the index valid. */
    method Index(docs: seq<Document>) returns (r: Result<(), IndexError>)
      requires Valid()
      modifies this
      ensures old(indexed) ==> r == Failure(AlreadyIndexed) && unchanged(this)
      ensures !old(indexed) ==> r == Success(()) && indexed && documents == docs
      ensures Valid()
    {
      if indexed {
        return Failure(AlreadyIndexed);
      }
      assert AllDocumentPostings() == [];
      assert termIdMap == map[];
      Build(docs);
      r := Success(());
    }

    /** The body of Index on an empty index: collect the postings, number the vocabulary, give
        every document its own slot and build the structures. */
    method Build(docs: seq<Document>)
      requires documents == [] && documentIds == [] && termIdMap == map[]
      modifies this
      ensures indexed && documents == docs && Valid()
    {
      var postings := CollectDocuments(docs);
      var uniqueTerms := UniqueTerms(postings);
      CollectedPostings(TokenLists(analyze, docs));
      InitializeStructures(uniqueTerms, |docs|);
      var ok := CreateInvertedIndex(postings);
      NoOverflowWithSlotPerDocument(TokenLists(analyze, docs));
      indexed := true;
    }

    /** Index as written: the per-document arrays get one slot per vocabulary term, so a
        collection with more documents than distinct terms fails with IndexOutOfRange as
        soon as a posting names a document past the last slot. */
    method IndexAsWritten(docs: seq<Document>) returns (r: Result<(), IndexError>)
      requires Valid()
      modifies this
      ensures old(indexed) ==> r == Failure(AlreadyIndexed) && unchanged(this)
      ensures !old(indexed) ==> documents == docs
      ensures !old(indexed) ==>
        (r.Failure? <==> Overflows(AllPostings(TokenLists(analyze, docs)), |UniqueTerms(AllPostings(TokenLists(analyze, docs)))|))
      ensures !old(indexed) && r.Failure? ==> r.error == IndexOutOfRange && !indexed
      ensures r.Success? ==> indexed && Valid()
    {
      if indexed {
        return Failure(AlreadyIndexed);
      }
      var postings := CollectDocuments(docs);
      var uniqueTerms := UniqueTerms(postings);
      CollectedPostings(TokenLists(analyze, docs));
      InitializeStructures(uniqueTerms, |uniqueTerms|);
      var ok := CreateInvertedIndex(postings);
      if !ok {
        return Failure(IndexOutOfRange);
      }
      indexed := true;
      r := Success(());
    }

    /** The first loop of Index: analyze each document, add its postings, store it under its
        position. */
    method CollectDocuments(docs: seq<Document>) returns (postings: seq<Posting>)
      requires documents == [] && documentIds == []
      modifies this
      ensures documents == docs && documentIds == Range(0, |docs|)
      ensures postings == AllPostings(TokenLists(analyze, docs))
      ensures indexed == old(indexed) && termIdMap == old(termIdMap)
    {
      postings := [];
      var i := 0;
      while i < |docs|
        invariant 0 <= i <= |docs|
        invariant documents == docs[..i] && documentIds == Range(0, i)
        invariant postings == AllPostings(TokenLists(analyze, docs[..i]))
        invariant indexed == old(indexed) && termIdMap == old(termIdMap)
      {
        var document := docs[i];
        var tokens := analyze(document);
        CollectStep(analyze, docs, i);
        postings := CreatePostings(postings, tokens, i);
        documents := documents + [document];
        documentIds := documentIds + [i];
        i := i + 1;
      }
      assert docs[..i] == docs;
    }

    /** The allocation and numbering step of Index: the vocabulary is numbered in order, and
        the per-document arrays get `slots` empty lists. The term dictionaries start empty
        (the source leaves them null until a term's first posting, and every term has one). */
    method InitializeStructures(uniqueTerms: seq<string>, slots: nat)
      requires NoDuplicates(uniqueTerms) && termIdMap == map[]
      modifies this
      ensures fresh(documentIndex) && fresh(idTermMap) && fresh(documentTermIdList) && fresh(documentTermList)
      ensures idTermMap[..] == uniqueTerms && Vocabulary(termIdMap, uniqueTerms)
      ensures documentIndex.Length == |uniqueTerms| && forall t :: 0 <= t < documentIndex.Length ==> documentIndex[t] == IndexValue([], 0)
      ensures documentTermIdList.Length == slots && documentTermList.Length == slots
      ensures forall d :: 0 <= d < slots ==> documentTermIdList[d] == [] && documentTermList[d] == []
      ensures documents == old(documents) && documentIds == old(documentIds) && indexed == old(indexed)
    {
      var terms := new string[|uniqueTerms|](_ => "");
      var ids: map<string, int> := map[];
      for i := 0 to |uniqueTerms|
        invariant forall t :: t in ids <==> t in uniqueTerms[..i]
        invariant forall j :: 0 <= j < i ==> ids[uniqueTerms[j]] == j && terms[j] == uniqueTerms[j]
        invariant unchanged(this)
      {
        ids := ids[uniqueTerms[i] := i];
        terms[i] := uniqueTerms[i];
        assert uniqueTerms[..i + 1] == uniqueTerms[..i] + [uniqueTerms[i]];
      }
      assert uniqueTerms[..|uniqueTerms|] == uniqueTerms;
      termIdMap := ids;
      idTermMap := terms;
      documentIndex := new IndexValue[|uniqueTerms|](_ => IndexValue([], 0));
      documentTermIdList := new seq<int>[slots](_ => []);
      documentTermList := new seq<DocumentValue>[slots](_ => []);
    }

    /** CreateInvertedIndex: processes the postings in order, then fills in the document
        frequencies. It stops with false at the first posting whose document has no slot in
        the per-document arrays. */
    method CreateInvertedIndex(postings: seq<Posting>) returns (ok: bool)
      requires Vocabulary(termIdMap, idTermMap[..])
      requires forall k :: 0 <= k < |postings| ==> postings[k].term in termIdMap && postings[k].documentId >= 0
      requires documentIndex.Length == idTermMap.Length
      requires forall t :: 0 <= t < documentIndex.Length ==> documentIndex[t] == IndexValue([], 0)
      requires documentTermList.Length == documentTermIdList.Length
      requires forall d :: 0 <= d < documentTermIdList.Length ==> documentTermIdList[d] == [] && documentTermList[d] == []
      modifies documentIndex, documentTermIdList, documentTermList
      ensures ok <==> !Overflows(postings, documentTermIdList.Length)
      ensures ok ==> Processed(postings)
      ensures ok ==> forall t :: 0 <= t < documentIndex.Length ==> documentIndex[t].documentFrequency == |documentIndex[t].documents|
    {
      assert Processed([]);
      ok := AddPostings(postings);
      if !ok {
        return;
      }
      CalculateDFValues();
    }

    /** The loop of CreateInvertedIndex over the postings, stopping at the first one whose
        document has no slot. */
    method AddPostings(postings: seq<Posting>) returns (ok: bool)
      requires Vocabulary(termIdMap, idTermMap[..])
      requires forall k :: 0 <= k < |postings| ==> postings[k].term in termIdMap && postings[k].documentId >= 0
      requires Processed([])
      modifies documentIndex, documentTermIdList, documentTermList
      ensures ok <==> !Overflows(postings, documentTermIdList.Length)
      ensures ok ==> Processed(postings)
    {
      var k := 0;
      assert postings[..0] == [];
      while k < |postings|
        invariant 0 <= k <= |postings|
        invariant Processed(postings[..k])
      {
        var x := postings[k];
        assert postings[..k + 1] == postings[..k] + [x];
        ok := AddPosting(x, postings[..k]);
        if !ok {
          return;
        }
        k := k + 1;
      }
      assert postings[..k] == postings;
      ok := true;
    }

    /** One iteration of CreateInvertedIndex: record the term id for the document, then either
        raise the document's term frequency (in the dictionary and, through the shared
        DocumentValue, in the document's term list) or add a new entry with frequency 1 to
        both. */
    method AddPosting(x: Posting, ghost p: seq<Posting>) returns (ok: bool)
      requires Vocabulary(termIdMap, idTermMap[..])
      requires x.term in termIdMap && x.documentId >= 0
      requires Processed(p)
      modifies documentIndex, documentTermIdList, documentTermList
      ensures ok <==> x.documentId < documentTermIdList.Length
      ensures ok ==> Processed(p + [x])
    {
      ghost var terms := idTermMap[..];
      ghost var dicts := documentIndex[..];
      ghost var idLists := documentTermIdList[..];
      ghost var valueLists := documentTermList[..];
      VocabularyInverse(termIdMap, terms);
      var termId := termIdMap[x.term];
      var d := x.documentId;
      if d >= documentTermIdList.Length {
        return false;
      }
      StepPresence(p, x, termIdMap, terms, dicts, idLists, valueLists);
      WritePosting(x, termId);
      StepKeepsBuilt(p, x, termIdMap, terms, dicts, idLists, valueLists);
      ok := true;
    }

    /** The writes of one AddPosting step: the term's id joins the document's id list if new,
        and the document's entry is counted up, or added with count 1, in both places. */
    method WritePosting(x: Posting, termId: int)
      requires x.term in termIdMap && termIdMap[x.term] == termId
      requires 0 <= termId < documentIndex.Length
      requires 0 <= x.documentId < documentTermIdList.Length == documentTermList.Length
      requires |documentTermIdList[x.documentId]| == |documentTermList[x.documentId]|
      requires Find(documentIndex[termId].documents, x.documentId) < |documentIndex[termId].documents|
        <==> termId in documentTermIdList[x.documentId]
      modifies documentIndex, documentTermIdList, documentTermList
      ensures documentIndex[..] == DictsAfter(x, termIdMap, old(documentIndex[..]))
      ensures documentTermIdList[..] == IdsAfter(x, termIdMap, old(documentTermIdList[..]))
      ensures documentTermList[..] == ValuesAfter(x, termIdMap, old(documentTermIdList[..]), old(documentTermList[..]))
    {
      ghost var dicts := documentIndex[..];
      ghost var idLists := documentTermIdList[..];
      ghost var valueLists := documentTermList[..];
      var d := x.documentId;
      if termId !in documentTermIdList[d] {
        documentTermIdList[d] := documentTermIdList[d] + [termId];
      }
      assert documentTermIdList[..] == IdsAfter(x, termIdMap, idLists);
      var entries := documentIndex[termId].documents;
      var j := Find(entries, d);
      if j < |entries| {
        documentIndex[termId] := IndexValue(entries[j := DocumentValue(d, entries[j].termFrequency + 1)], documentIndex[termId].documentFrequency);
        assert documentIndex[..] == DictsAfter(x, termIdMap, dicts);
        var pos := Position(documentTermIdList[d], termId);
        documentTermList[d] := documentTermList[d][pos := DocumentValue(d, documentTermList[d][pos].termFrequency + 1)];
        assert documentTermList[..] == ValuesAfter(x, termIdMap, idLists, valueLists);
      } else {
        var documentValue := DocumentValue(d, 1);
        documentTermList[d] := documentTermList[d] + [documentValue];
        assert documentTermList[..] == ValuesAfter(x, termIdMap, idLists, valueLists);
        documentIndex[termId] := IndexValue(entries + [documentValue], documentIndex[termId].documentFrequency);
        assert documentIndex[..] == DictsAfter(x, termIdMap, dicts);
      }
    }

    /** CalculateDFValues: each term's document frequency is the size of its dictionary. */
    method CalculateDFValues()
      modifies documentIndex
      ensures forall t :: 0 <= t < documentIndex.Length ==>
        documentIndex[t] == IndexValue(old(documentIndex[t]).documents, |old(documentIndex[t]).documents|)
    {
      for t := 0 to documentIndex.Length
        invariant forall u :: 0 <= u < t ==>
          documentIndex[u] == IndexValue(old(documentIndex[u]).documents, |old(documentIndex[u]).documents|)
        invariant forall u :: t <= u < documentIndex.Length ==> documentIndex[u] == old(documentIndex[u])
      {
        documentIndex[t] := documentIndex[t].(documentFrequency := |documentIndex[t].documents|);
      }
    }

    // -------------------------------------------------------------------------
    // What the index records

    /** Each term's dictionary lists, in ascending order, exactly the documents whose tokens
        contain the term, each with the number of times the term occurs there; its document
        frequency is the number of those documents. */
    lemma IndexContents(t: int)
      requires Valid() && 0 <= t < documentIndex.Length
      ensures Ascending(Keys(documentIndex[t].documents))
      ensures forall d :: d in Keys(documentIndex[t].documents) <==> 0 <= d < |documents| && idTermMap[t] in analyze(documents[d])
      ensures forall j :: 0 <= j < |documentIndex[t].documents| ==>
        0 <= documentIndex[t].documents[j].documentId < |documents| &&
        documentIndex[t].documents[j].termFrequency == multiset(analyze(documents[documentIndex[t].documents[j].documentId]))[idTermMap[t]]
      ensures documentIndex[t].documentFrequency == |set d | 0 <= d < |documents| && idTermMap[t] in analyze(documents[d])|
    {
      DictionaryContents(analyze, documents, idTermMap[t], documentIndex[t]);
    }

    /** The vocabulary is the set of terms of the indexed documents. */
    lemma VocabularyContents(term: string)
      requires Valid()
      ensures term in termIdMap <==> exists d :: 0 <= d < |documents| && term in analyze(documents[d])
    {
      var tl := TokenLists(analyze, documents);
      UniqueTermsMembers(tl, term);
      if term in termIdMap {
        var d :| 0 <= d < |tl| && term in tl[d];
        assert term in analyze(documents[d]);
      }
      if exists d :: 0 <= d < |documents| && term in analyze(documents[d]) {
        var d :| 0 <= d < |documents| && term in analyze(documents[d]);
        assert term in tl[d];
      }
    }

    /** A document's term list and its term-id list go in lockstep: the value beside a term id
        is that document's entry in the term's dictionary (the object the source shares). */
    lemma DocumentTermListsMatchIndex(d: int, i: int)
      requires Valid() && 0 <= d < documentTermList.Length && 0 <= i < |documentTermList[d]|
      ensures |documentTermIdList[d]| == |documentTermList[d]|
      ensures 0 <= documentTermIdList[d][i] < documentIndex.Length
      ensures documentTermList[d][i].documentId == d
      ensures documentTermList[d][i] in documentIndex[documentTermIdList[d][i]].documents
    {
      DocumentEntryIndexed(AllDocumentPostings(), termIdMap, idTermMap[..], documentIndex[..],
                           documentTermIdList[..], documentTermList[..], d, i);
    }

    /** A document's term-id list names each of its distinct terms once: the id of a known
        term is in it exactly when the analyzed document contains the term. */
    lemma DocumentTermIdsMatchDocument(d: int)
      requires Valid() && 0 <= d < documentTermIdList.Length
      ensures NoDuplicates(documentTermIdList[d])
      ensures forall t :: t in termIdMap ==>
        (termIdMap[t] in documentTermIdList[d] <==> d < |documents| && t in analyze(documents[d]))
      ensures forall i :: i in documentTermIdList[d] ==> 0 <= i < idTermMap.Length
    {
      var p := AllDocumentPostings();
      VocabularyInverse(termIdMap, idTermMap[..]);
      DocTermIdsMeaning(p, d, termIdMap);
      forall t | t in termIdMap
        ensures termIdMap[t] in documentTermIdList[d] <==> d < |documents| && t in analyze(documents[d])
      {
        AllPostingsMembers(TokenLists(analyze, documents), t, d);
      }
    }

    // -------------------------------------------------------------------------
    // Boolean search

    /** What evaluation sees of the index. */
    function TermLookup(): (l: Lookup)
      reads Repr()
      requires Valid()
      ensures l.Valid()
      ensures forall i, d :: 0 <= i < |l.postingKeys| && d in l.postingKeys[i] ==> 0 <= d < |documents|
    {
      VocabularyInverse(termIdMap, idTermMap[..]);
      DictionaryKeys(TokenLists(analyze, documents), idTermMap[..], documentIndex[..]);
      Lookup(analyze, termIdMap, PostingKeys(documentIndex[..]))
    }

    /** GetDocumentsForTerm: the keys of the dictionary of the term's first preprocessed token. */
    method GetDocumentsForTerm(unprocessedTerm: string) returns (ids: seq<int>)
      requires Valid()
      ensures ids == TermDocs(TermLookup(), unprocessedTerm)
    {
      var res := analyze(Plain(unprocessedTerm));
      if |res| == 0 {
        return [];
      }
      var processedTerm := res[0];
      if processedTerm !in termIdMap {
        return [];
      }
      VocabularyInverse(termIdMap, idTermMap[..]);
      var entries := documentIndex[termIdMap[processedTerm]].documents;
      ids := [];
      for i := 0 to |entries|
        invariant ids == Keys(entries[..i])
      {
        assert entries[..i + 1][..i] == entries[..i];
        ids := ids + [entries[i].documentId];
      }
      assert entries[..|entries|] == entries;
    }

    /** GetDocumentsForQuery: evaluates a parsed query node by node. */
    method GetDocumentsForQuery(queryNode: ParserNode) returns (ids: seq<int>)
      requires Valid() && WellTyped(queryNode)
      ensures ids == Eval(TermLookup(), documentIds, queryNode)
      decreases queryNode
    {
      if queryNode.Type() == TERM {
        ids := GetDocumentsForTerm(queryNode.text);
      } else if queryNode.Type() == NOT {
        var childIds := GetDocumentsForQuery(queryNode.child);
        ids := Except(documentIds, childIds);
      } else {
        var documentIdsLeft := GetDocumentsForQuery(queryNode.left);
        var documentIdsRight := GetDocumentsForQuery(queryNode.right);
        if |documentIdsLeft| == 0 && |documentIdsRight| == 0 {
          return [];
        }
        if queryNode.Type() == AND {
          ids := Intersect(documentIdsLeft, documentIdsRight);
        } else {
          ids := Union(documentIdsLeft, documentIdsRight);
        }
      }
    }

    /** The documents a query string selects, or the parser's failure. Each selected document
        is listed once, and a document is selected exactly when it exists and matches the
        parsed query. */
    function SearchIds(query: string): (r: Result<seq<int>, IndexError>)
      reads Repr()
      requires Valid()
      ensures r.Failure? <==> Parse(query).Failure?
      ensures r.Failure? ==> r.error == QueryError(Parse(query).error)
      ensures r.Success? ==> WellTyped(Parse(query).value) && NoDuplicates(r.value)
      ensures r.Success? ==> forall d :: d in r.value <==> 0 <= d < |documents| && Matches(TermLookup(), documentIds, Parse(query).value, d)
    {
      RangeMembers(0, |documents|);
      SearchWithin(TermLookup(), documentIds, query);
      Search(TermLookup(), documentIds, query)
    }

    /** BooleanSearchIds. */
    method BooleanSearchIds(query: string) returns (r: Result<seq<int>, IndexError>)
      requires Valid()
      ensures r == SearchIds(query)
    {
      var parsedQuery := ParseQuery(query);
      if parsedQuery.Failure? {
        return Failure(QueryError(parsedQuery.error));
      }
      ParseWellTyped(query);
      var documentIds := GetDocumentsForQuery(parsedQuery.value);
      r := Success(documentIds);
    }

    /** The ids a successful boolean search returns documents for: the selected ids in
        ascending order. */
    function Hits(query: string): (hits: seq<int>)
      reads Repr()
      requires Valid() && SearchIds(query).Success?
      ensures Ascending(hits)
      ensures forall d :: d in hits <==> d in SearchIds(query).value
      ensures forall i :: 0 <= i < |hits| ==> 0 <= hits[i] < |documents|
    {
      var ids := SearchIds(query).value;
      SortDistinct(ids);
      var hits := Sort(ids);
      forall i | 0 <= i < |hits|
        ensures 0 <= hits[i] < |documents|
      {
        var d := hits[i];
        assert d in hits;
        assert d in ids;
      }
      hits
    }

    /** BooleanSearch: parses the query, sorts the selected ids and returns the first TopCount
        documents with the number of selected documents; TopCount -1 is first replaced by that
        number, a negative TopCount gives no documents, and no selected document returns at
        once without touching the query. */
    /** The parse, the evaluation and the sort that open BooleanSearch. */
    method SortedHits(query: string) returns (r: Result<seq<int>, IndexError>)
      requires Valid()
      ensures r.Failure? <==> SearchIds(query).Failure?
      ensures r.Failure? ==> r.error == SearchIds(query).error
      ensures r.Success? ==> r.value == Hits(query) && (r.value == [] <==> SearchIds(query).value == [])
    {
      var parsedQuery := ParseQuery(query);
      if parsedQuery.Failure? {
        return Failure(QueryError(parsedQuery.error));
      }
      ParseWellTyped(query);
      var documentIds := GetDocumentsForQuery(parsedQuery.value);
      documentIds := Sort(documentIds);
      assert documentIds == Hits(query);
      assert SearchIds(query).value != [] ==> SearchIds(query).value[0] in documentIds;
      assert documentIds != [] ==> documentIds[0] in SearchIds(query).value;
      r := Success(documentIds);
    }

    method BooleanSearch(query: BasicQuery) returns (r: Result<(seq<Document>, int), IndexError>)
      requires Valid()
      modifies query
      ensures SearchIds(query.queryText).Failure? ==>
        r == Failure(SearchIds(query.queryText).error) && query.topCount == old(query.topCount)
      ensures SearchIds(query.queryText) == Success([]) ==> r == Success(([], 0)) && query.topCount == old(query.topCount)
      ensures SearchIds(query.queryText).Success? && SearchIds(query.queryText).value != [] ==>
        var hits := Hits(query.queryText);
        query.topCount == (if old(query.topCount) == -1 then |hits| else old(query.topCount)) &&
        r.Success? && r.value.1 == |hits| &&
        |r.value.0| == (if query.topCount < 0 then 0 else if query.topCount < |hits| then query.topCount else |hits|) &&
        forall i :: 0 <= i < |r.value.0| ==> r.value.0[i] == documents[hits[i]]
    {
      var sorted := SortedHits(query.queryText);
      if sorted.Failure? {
        return Failure(sorted.error);
      }
      var documentIds := sorted.value;
      if |documentIds| == 0 {
        assert SearchIds(query.queryText) == Success([]);
        return Success(([], 0));
      }
      var totalCount := |documentIds|;
      if query.topCount == -1 {
        query.topCount := totalCount;
      }
      var docs := FirstDocuments(documentIds, if totalCount < query.topCount then totalCount else query.topCount);
      r := Success((docs, totalCount));
    }

    /** The loop of BooleanSearch: the documents of the first `limit` ids, none when limit is
        negative. */
    method FirstDocuments(ids: seq<int>, limit: int) returns (docs: seq<Document>)
      requires limit <= |ids| && forall k :: 0 <= k < |ids| ==> 0 <= ids[k] < |documents|
      ensures |docs| == if limit < 0 then 0 else limit
      ensures forall i :: 0 <= i < |docs| ==> docs[i] == documents[ids[i]]
    {
      docs := [];
      var i := 0;
      while i < limit
        invariant 0 <= i <= if limit < 0 then 0 else limit
        invariant |docs| == i && forall k :: 0 <= k < i ==> docs[k] == documents[ids[k]]
      {
        docs := docs + [documents[ids[i]]];
        i := i + 1;
      }
    }

    /** GetDocumentsByIds. */
    method GetDocumentsByIds(documentIds: seq<int>) returns (r: Result<seq<Document>, IndexError>)
      ensures r == ByIds(documents, documentIds, NonExistentDocument, ArgumentOutOfRange)
    {
      var results: seq<Document> := [];
      for i := 0 to |documentIds|
        invariant ByIds(documents, documentIds[..i], NonExistentDocument, ArgumentOutOfRange) == Success(results)
      {
        assert documentIds[..i + 1][..i] == documentIds[..i];
        var documentId := documentIds[i];
        if documentId >= |documents| {
          ByIdsPrefixFailure(documents, documentIds, i + 1, NonExistentDocument, ArgumentOutOfRange);
          return Failure(NonExistentDocument);
        }
        if documentId < 0 {
          ByIdsPrefixFailure(documents, documentIds, i + 1, NonExistentDocument, ArgumentOutOfRange);
          return Failure(ArgumentOutOfRange);
        }
        results := results + [documents[documentId]];
      }
      assert documentIds[..|documentIds|] == documentIds;
      r := Success(results);
    }

    // -------------------------------------------------------------------------
    // Vector-space search

    /** The prefiltering query: the query's tokens joined by the operator. */
    function PrefilterQuery(query: string, op: string): string {
      JoinWith(tokenize(query), " " + op + " ")
    }

    /** PreprocessQueryForPrefiltering: its three branches build the same string. */
    method PreprocessQueryForPrefiltering(query: string, op: string) returns (newQuery: string)
      ensures newQuery == PrefilterQuery(query, op)
    {
      var tokens := tokenize(query);
      if |tokens| < 5 && op == "AND" {
        newQuery := JoinTokens(tokens, " " + op + " ");
      } else if |tokens| > 6 && op == "OR" {
        assert " OR " == " " + op + " ";
        newQuery := JoinTokens(tokens, " OR ");
      } else {
        newQuery := JoinTokens(tokens, " " + op + " ");
      }
    }

    /** GetQueryVector up to the TF-IDF weighting: the number of occurrences of each vocabulary
        term among the query's preprocessed tokens, or nothing when none of them is in the
        vocabulary. */
    method GetQueryVector(query: BasicQuery) returns (r: Option<seq<int>>)
      requires Vocabulary(termIdMap, idTermMap[..])
      ensures r.None? <==> KnownIds(analyze(Plain(query.queryText)), termIdMap) == []
      ensures r.None? <==> forall k :: 0 <= k < |analyze(Plain(query.queryText))| ==> analyze(Plain(query.queryText))[k] !in termIdMap
      ensures r.Some? ==> |r.value| == idTermMap.Length
      ensures r.Some? ==> forall i :: 0 <= i < |r.value| ==> r.value[i] == multiset(analyze(Plain(query.queryText)))[idTermMap[i]]
    {
      var queryTokens := analyze(Plain(query.queryText));
      var tokenIds := KnownTermIds(queryTokens);
      KnownIdsEmpty(queryTokens, termIdMap);
      if |tokenIds| == 0 {
        return None;
      }
      QueryIdsCount(queryTokens, termIdMap, idTermMap[..]);
      var vector := CountIds(tokenIds, |termIdMap|);
      r := Some(vector);
    }

    /** The first loop of GetQueryVector: the ids of the tokens in the vocabulary, in order. */
    method KnownTermIds(tokens: seq<string>) returns (tokenIds: seq<int>)
      ensures tokenIds == KnownIds(tokens, termIdMap)
    {
      tokenIds := [];
      for i := 0 to |tokens|
        invariant tokenIds == KnownIds(tokens[..i], termIdMap)
      {
        assert tokens[..i + 1][..i] == tokens[..i];
        if tokens[i] in termIdMap {
          tokenIds := tokenIds + [termIdMap[tokens[i]]];
        }
      }
      assert tokens[..|tokens|] == tokens;
    }

    /** The prefiltered candidates: the AND query's documents, or the OR query's when the AND
        query selects fewer than five. */
    function Prefiltered(query: string): (r: Result<seq<int>, IndexError>)
      reads Repr()
      requires Valid()
      ensures r.Success? ==> NoDuplicates(r.value) && forall k :: 0 <= k < |r.value| ==> 0 <= r.value[k] < |documents|
    {
      var l := TermLookup();
      var andQuery := PrefilterQuery(query, "AND");
      var orQuery := PrefilterQuery(query, "OR");
      PrefilterWithin(l, |documents|, andQuery, orQuery);
      PrefilterSearch(l, documentIds, andQuery, orQuery)
    }

    /** VectorSpaceSearch with the cosine similarity of each document to the query given as
        `similarity`: the candidates ranked by similarity (ties in candidate order), the first
        TopCount of them with their scores, and the number of candidates with a non-zero
        similarity. TopCount -1 is first replaced by the number of candidates; any other
        negative TopCount returns them all. */
    method VectorSpaceSearch(query: BasicQuery, similarity: int -> real) returns (r: Result<(seq<Document>, int, seq<real>), IndexError>)
      requires Valid()
      modifies query
      ensures (r, query.topCount) == old(VectorOutcome(documents, KnownIds(analyze(Plain(query.queryText)), termIdMap) != [],
                                                       Prefiltered(query.queryText), query.topCount, similarity))
    {
      var topCount;
      r, topCount := RankedSearch(query, similarity);
      query.topCount := topCount;
    }

    /** The body of VectorSpaceSearch, returning the TopCount it ends with instead of storing it:
        no query term in the vocabulary or no prefiltered candidate gives no result, a failing
        prefilter query its error, and otherwise the candidates are ranked. */
    method RankedSearch(query: BasicQuery, similarity: int -> real) returns (r: Result<(seq<Document>, int, seq<real>), IndexError>, topCount: int)
      requires Valid()
      ensures (r, topCount) == VectorOutcome(documents, KnownIds(analyze(Plain(query.queryText)), termIdMap) != [],
                                             Prefiltered(query.queryText), query.topCount, similarity)
    {
      topCount := query.topCount;
      var queryVector := GetQueryVector(query);
      assert Prefiltered(query.queryText) == old(Prefiltered(query.queryText));
      if queryVector.None? {
        return Success(([], 0, [])), topCount;
      }
      var prefiltered := PrefilterCandidates(query.queryText);
      if prefiltered.Failure? {
        return Failure(prefiltered.error), topCount;
      }
      if |prefiltered.value| == 0 {
        return Success(([], 0, [])), topCount;
      }
      var results, count, scores;
      results, count, scores, topCount := RankCandidates(prefiltered.value, topCount, similarity);
      r := Success((results, count, scores));
    }

    /** The ranking part of VectorSpaceSearch: scores the candidates, replaces TopCount -1 by
        their number, ranks them by score and keeps the first TopCount, reporting how many have
        a non-zero score. */
    method RankCandidates(candidates: seq<int>, topCount: int, similarity: int -> real)
      returns (results: seq<Document>, count: int, scores: seq<real>, newTopCount: int)
      requires candidates != [] && forall k :: 0 <= k < |candidates| ==> 0 <= candidates[k] < |documents|
      ensures (Success((results, count, scores)), newTopCount) == VectorOutcome(documents, true, Success(candidates), topCount, similarity)
    {
      var entries := ScoreCandidates(candidates, similarity);
      newTopCount := topCount;
      if newTopCount == -1 {
        newTopCount := |entries|;
      }
      var ranked := RankByScore(entries);
      RankedWithin(entries, ranked, |documents|);
      results, scores := TopDocuments(ranked, newTopCount);
      count := NonZeroCount(entries);
    }

    /** The prefiltering of VectorSpaceSearch: an AND query over the query's tokens, widened to
        an OR query when it selects fewer than five documents. */
    method PrefilterCandidates(query: string) returns (r: Result<seq<int>, IndexError>)
      requires Valid()
      ensures r == Prefiltered(query)
    {
      var andQuery := PreprocessQueryForPrefiltering(query, "AND");
      r := BooleanSearchIds(andQuery);
      if r.Success? && |r.value| < 5 {
        var orQuery := PreprocessQueryForPrefiltering(query, "OR");
        r := BooleanSearchIds(orQuery);
      }
    }

    /** The similarity of each candidate, in candidate order. */
    method ScoreCandidates(candidates: seq<int>, similarity: int -> real) returns (entries: seq<Scored>)
      ensures entries == ScoresOf(candidates, similarity)
    {
      entries := [];
      for k := 0 to |candidates|
        invariant entries == ScoresOf(candidates[..k], similarity)
      {
        entries := entries + [Scored(candidates[k], similarity(candidates[k]))];
      }
      assert candidates[..|candidates|] == candidates;
    }

    /** The result loop of VectorSpaceSearch: the documents and scores of the ranked entries,
        stopping after topCount of them. */
    method TopDocuments(ranked: seq<Scored>, topCount: int) returns (results: seq<Document>, scores: seq<real>)
      requires forall k :: 0 <= k < |ranked| ==> 0 <= ranked[k].documentId < |documents|
      ensures results == DocumentsOf(documents, TopK(ranked, topCount))
      ensures scores == ScoresIn(TopK(ranked, topCount))
    {
      results := [];
      scores := [];
      var count := 0;
      while count < |ranked|
        invariant 0 <= count <= |ranked|
        invariant 0 <= topCount ==> count <= topCount
        invariant results == DocumentsOf(documents, ranked[..count]) && scores == ScoresIn(ranked[..count])
      {
        if count == topCount {
          break;
        }
        assert ranked[..count + 1][..count] == ranked[..count];
        results := results + [documents[ranked[count].documentId]];
        scores := scores + [ranked[count].score];
        count := count + 1;
      }
      assert count == |TopK(ranked, topCount)|;
    }
  }

  /** In a document's term-id list only one position holds a given id, and it names its term. */
  lemma OnlyPosition(ids: seq<int>, terms: seq<string>, termIdMap: map<string, int>, pos: nat)
    requires Vocabulary(termIdMap, terms) && NoDuplicates(ids)
    requires forall i :: i in ids ==> exists t :: t in termIdMap && termIdMap[t] == i
    requires pos < |ids|
    ensures 0 <= ids[pos] < |terms|
    ensures forall i :: 0 <= i < |ids| && i != pos && 0 <= ids[i] < |terms| ==> terms[ids[i]] != terms[ids[pos]]
  {
    VocabularyInverse(termIdMap, terms);
    assert ids[pos] in ids;
  }

  /** Every collected posting has its term in the vocabulary and names an existing document. */
  lemma CollectedPostings(tokenLists: seq<seq<string>>)
    ensures forall k :: 0 <= k < |AllPostings(tokenLists)| ==>
      AllPostings(tokenLists)[k].term in UniqueTerms(AllPostings(tokenLists)) &&
      0 <= AllPostings(tokenLists)[k].documentId < |tokenLists|
  {
    var p := AllPostings(tokenLists);
    AllPostingsOrdered(tokenLists);
    forall k | 0 <= k < |p|
      ensures p[k].term in UniqueTerms(p)
    {
      assert Terms(p)[k] == p[k].term;
    }
  }

  /** Before a posting is processed, its document is a key of its term's dictionary exactly
      when the term's id is in the document's list: the two structures agree. */
  lemma StepPresence(p: seq<Posting>, x: Posting, termIdMap: map<string, int>, terms: seq<string>,
                     dicts: seq<IndexValue>, idLists: seq<seq<int>>, valueLists: seq<seq<DocumentValue>>)
    requires Vocabulary(termIdMap, terms) && Built(p, termIdMap, terms, dicts, idLists, valueLists)
    requires x.term in termIdMap && 0 <= x.documentId < |idLists|
    ensures 0 <= termIdMap[x.term] < |dicts|
    ensures Find(dicts[termIdMap[x.term]].documents, x.documentId) < |dicts[termIdMap[x.term]].documents|
        <==> termIdMap[x.term] in idLists[x.documentId]
  {
    VocabularyInverse(termIdMap, terms);
    var e := dicts[termIdMap[x.term]].documents;
    DocTermIdsMeaning(p, x.documentId, termIdMap);
    EntriesKeys(p, x.term);
    assert Find(e, x.documentId) < |e| <==> x.documentId in Keys(e);
  }

  /** Processing one posting keeps the structures built from the postings so far. */
  lemma StepKeepsBuilt(p: seq<Posting>, x: Posting, termIdMap: map<string, int>, terms: seq<string>,
                       dicts: seq<IndexValue>, idLists: seq<seq<int>>, valueLists: seq<seq<DocumentValue>>)
    requires Vocabulary(termIdMap, terms) && Built(p, termIdMap, terms, dicts, idLists, valueLists)
    requires x.term in termIdMap && 0 <= x.documentId < |idLists|
    ensures 0 <= termIdMap[x.term] < |dicts|
    ensures Built(p + [x], termIdMap, terms, DictsAfter(x, termIdMap, dicts), IdsAfter(x, termIdMap, idLists),
                  ValuesAfter(x, termIdMap, idLists, valueLists))
  {
    var p' := p + [x];
    StepDicts(p, x, termIdMap, terms, dicts);
    StepIds(p, x, termIdMap, idLists);
    StepValues(p, x, termIdMap, terms, idLists, valueLists);
    forall k | 0 <= k < |p'|
      ensures p'[k].term in termIdMap && p'[k].documentId < |idLists|
    {
      if k < |p| {
        assert p'[k] == p[k];
      }
    }
  }

  /** Each document's id list after one posting is the one the longer posting list gives. */
  lemma StepIds(p: seq<Posting>, x: Posting, termIdMap: map<string, int>, idLists: seq<seq<int>>)
    requires forall k :: 0 <= k < |p| ==> p[k].term in termIdMap
    requires x.term in termIdMap && 0 <= x.documentId < |idLists|
    requires forall d :: 0 <= d < |idLists| ==> idLists[d] == DocTermIds(p, d, termIdMap)
    ensures forall d :: 0 <= d < |idLists| ==> IdsAfter(x, termIdMap, idLists)[d] == DocTermIds(p + [x], d, termIdMap)
  {
    forall d | 0 <= d < |idLists|
      ensures IdsAfter(x, termIdMap, idLists)[d] == DocTermIds(p + [x], d, termIdMap)
    {
      DocTermIdsStep(p, x, d, termIdMap);
    }
  }

  /** Each document's term list after one posting is the one the longer posting list gives:
      the posting's document is updated, the others keep theirs. */
  lemma StepValues(p: seq<Posting>, x: Posting, termIdMap: map<string, int>, terms: seq<string>,
                   idLists: seq<seq<int>>, valueLists: seq<seq<DocumentValue>>)
    requires Vocabulary(termIdMap, terms) && x.term in termIdMap
    requires forall k :: 0 <= k < |p| ==> p[k].term in termIdMap
    requires 0 <= x.documentId < |idLists| == |valueLists|
    requires forall d :: 0 <= d < |idLists| ==> idLists[d] == DocTermIds(p, d, termIdMap)
    requires forall d :: 0 <= d < |valueLists| ==> valueLists[d] == DocTermValues(p, d, idLists[d], terms)
    ensures |idLists[x.documentId]| == |valueLists[x.documentId]|
    ensures forall d :: 0 <= d < |valueLists| ==>
      ValuesAfter(x, termIdMap, idLists, valueLists)[d] == DocTermValues(p + [x], d, IdsAfter(x, termIdMap, idLists)[d], terms)
  {
    var ids' := IdsAfter(x, termIdMap, idLists);
    var values' := ValuesAfter(x, termIdMap, idLists, valueLists);
    forall d | 0 <= d < |valueLists|
      ensures values'[d] == DocTermValues(p + [x], d, ids'[d], terms)
    {
      if d == x.documentId {
        StepValuesAt(p, x, termIdMap, terms, idLists[d], valueLists[d]);
      } else {
        DocTermValuesOther(p, x, d, idLists[d], terms);
      }
    }
  }

  lemma StepDicts(p: seq<Posting>, x: Posting, termIdMap: map<string, int>, terms: seq<string>, dicts: seq<IndexValue>)
    requires Vocabulary(termIdMap, terms) && x.term in termIdMap
    requires |dicts| == |terms| && forall t :: 0 <= t < |dicts| ==> dicts[t].documents == Entries(p, terms[t])
    ensures 0 <= termIdMap[x.term] < |dicts|
    ensures forall t :: 0 <= t < |dicts| ==> DictsAfter(x, termIdMap, dicts)[t].documents == Entries(p + [x], terms[t])
  {
    VocabularyInverse(termIdMap, terms);
    forall t | 0 <= t < |dicts|
      ensures DictsAfter(x, termIdMap, dicts)[t].documents == Entries(p + [x], terms[t])
    {
      EntriesStep(p, x, terms[t]);
    }
  }

  /** The term list of the posting's own document after the posting. */
  lemma StepValuesAt(p: seq<Posting>, x: Posting, termIdMap: map<string, int>, terms: seq<string>,
                     ids: seq<int>, values: seq<DocumentValue>)
    requires Vocabulary(termIdMap, terms) && x.term in termIdMap
    requires forall k :: 0 <= k < |p| ==> p[k].term in termIdMap
    requires ids == DocTermIds(p, x.documentId, termIdMap)
    requires values == DocTermValues(p, x.documentId, ids, terms)
    ensures var pos := Position(ids, termIdMap[x.term]);
      (pos < |ids| ==> DocTermValues(p + [x], x.documentId, ids, terms) == values[pos := DocumentValue(x.documentId, values[pos].termFrequency + 1)]) &&
      (pos == |ids| ==> DocTermValues(p + [x], x.documentId, ids + [termIdMap[x.term]], terms) == values + [DocumentValue(x.documentId, 1)])
  {
    VocabularyInverse(termIdMap, terms);
    var termId := termIdMap[x.term];
    DocTermIdsMeaning(p, x.documentId, termIdMap);
    var pos := Position(ids, termId);
    if pos < |ids| {
      OnlyPosition(ids, terms, termIdMap, pos);
      DocTermValuesSeen(p, x, ids, terms, pos);
    } else {
      forall i | 0 <= i < |ids| && 0 <= ids[i] < |terms|
        ensures terms[ids[i]] != x.term
      {
        assert ids[i] != termId;
      }
      DocTermValuesNew(p, x, ids, terms, termId);
    }
  }

  /** The query's known term ids are vocabulary positions, and each position occurs as often
      as its term does among the query's tokens. */
  lemma QueryIdsCount(tokens: seq<string>, termIdMap: map<string, int>, terms: seq<string>)
    requires Vocabulary(termIdMap, terms)
    ensures |termIdMap| == |terms|
    ensures forall k :: 0 <= k < |KnownIds(tokens, termIdMap)| ==> 0 <= KnownIds(tokens, termIdMap)[k] < |terms|
    ensures forall i :: 0 <= i < |terms| ==> multiset(KnownIds(tokens, termIdMap))[i] == multiset(tokens)[terms[i]]
  {
    VocabularyInverse(termIdMap, terms);
    KnownIdsCount(tokens, termIdMap, terms);
    VocabularySize(termIdMap, terms);
    var ids := KnownIds(tokens, termIdMap);
    forall k | 0 <= k < |ids|
      ensures 0 <= ids[k] < |terms|
    {
      assert ids[k] in termIdMap.Values;
      var t :| t in termIdMap && termIdMap[t] == ids[k];
    }
  }

  /** The vocabulary has as many entries as there are numbered terms. */
  lemma VocabularySize(termIdMap: map<string, int>, terms: seq<string>)
    requires Vocabulary(termIdMap, terms)
    ensures |termIdMap| == |terms|
  {
    DistinctCardinality(terms);
    assert termIdMap.Keys == set t | t in terms;
  }

  /** Ranked entries name only candidates, so every ranked id names a document. */
  lemma RankedWithin(entries: seq<Scored>, ranked: seq<Scored>, n: int)
    requires multiset(ranked) == multiset(entries)
    requires forall k :: 0 <= k < |entries| ==> 0 <= entries[k].documentId < n
    ensures forall k :: 0 <= k < |ranked| ==> 0 <= ranked[k].documentId < n
  {
    forall k | 0 <= k < |ranked|
      ensures 0 <= ranked[k].documentId < n
    {
      assert ranked[k] in multiset(entries);
    }
  }

  /** The posting keys of dictionaries built from a collection's postings name each document
      once, and only documents of the collection. */
  lemma DictionaryKeys(tokenLists: seq<seq<string>>, terms: seq<string>, dicts: seq<IndexValue>)
    requires |dicts| == |terms|
    requires forall t :: 0 <= t < |dicts| ==> dicts[t].documents == Entries(AllPostings(tokenLists), terms[t])
    ensures forall i :: 0 <= i < |dicts| ==> NoDuplicates(PostingKeys(dicts)[i])
    ensures forall i, d :: 0 <= i < |dicts| && d in PostingKeys(dicts)[i] ==> 0 <= d < |tokenLists|
  {
    forall i | 0 <= i < |dicts|
      ensures NoDuplicates(PostingKeys(dicts)[i])
      ensures forall d :: d in PostingKeys(dicts)[i] ==> 0 <= d < |tokenLists|
    {
      TermEntries(tokenLists, terms[i]);
    }
  }

  /** What VectorSpaceSearch returns, with the new TopCount: nothing when no query term is in
      the vocabulary or no candidate survives the prefilter, the prefilter's error, or else the
      documents and scores of the first TopCount candidates ranked by similarity (TopCount -1
      meaning all of them) and the number of candidates with a non-zero similarity. */
  function VectorOutcome(documents: seq<Document>, known: bool, prefiltered: Result<seq<int>, IndexError>,
                         topCount: int, similarity: int -> real): (out: (Result<(seq<Document>, int, seq<real>), IndexError>, int))
    requires known && prefiltered.Success? ==> forall k :: 0 <= k < |prefiltered.value| ==> 0 <= prefiltered.value[k] < |documents|
    ensures out.0.Failure? <==> known && prefiltered.Failure?
    ensures out.0.Failure? ==> out.0.error == prefiltered.error
    ensures !known || prefiltered.Failure? || prefiltered.value == [] ==> out.1 == topCount
    ensures (!known || (prefiltered.Success? && prefiltered.value == [])) ==> out.0 == Success(([], 0, []))
    ensures known && prefiltered.Success? && prefiltered.value != [] ==> out.1 == if topCount == -1 then |prefiltered.value| else topCount
  {
    if !known then (Success(([], 0, [])), topCount)
    else if prefiltered.Failure? then (Failure(prefiltered.error), topCount)
    else if prefiltered.value == [] then (Success(([], 0, [])), topCount)
    else
      var entries := ScoresOf(prefiltered.value, similarity);
      var newTopCount := if topCount == -1 then |entries| else topCount;
      var ranked := RankByScore(entries);
      RankedWithin(entries, ranked, |documents|);
      var top := TopK(ranked, newTopCount);
      (Success((DocumentsOf(documents, top), NonZeroCount(entries), ScoresIn(top))), newTopCount)
  }

  /** The documents of the entries, in entry order. */
  function DocumentsOf(documents: seq<Document>, entries: seq<Scored>): (r: seq<Document>)
    requires forall k :: 0 <= k < |entries| ==> 0 <= entries[k].documentId < |documents|
    ensures |r| == |entries| && forall i :: 0 <= i < |entries| ==> r[i] == documents[entries[i].documentId]
    decreases |entries|
  {
    if entries == [] then []
    else DocumentsOf(documents, entries[..|entries| - 1]) + [documents[entries[|entries| - 1].documentId]]
  }

  /** The scores of the entries, in entry order. */
  function ScoresIn(entries: seq<Scored>): (r: seq<real>)
    ensures |r| == |entries| && forall i :: 0 <= i < |entries| ==> r[i] == entries[i].score
    decreases |entries|
  {
    if entries == [] then [] else ScoresIn(entries[..|entries| - 1]) + [entries[|entries| - 1].score]
  }

  /** The second loop of GetQueryVector: a vector of n counters, counter i counting the
      occurrences of id i. */
  method CountIds(ids: seq<int>, n: nat) returns (vector: seq<int>)
    requires forall k :: 0 <= k < |ids| ==> 0 <= ids[k] < n
    ensures |vector| == n && forall i :: 0 <= i < n ==> vector[i] == multiset(ids)[i]
  {
    vector := seq(n, _ => 0);
    for k := 0 to |ids|
      invariant |vector| == n && forall i :: 0 <= i < n ==> vector[i] == multiset(ids[..k])[i]
    {
      assert ids[..k + 1] == ids[..k] + [ids[k]];
      vector := vector[ids[k] := vector[ids[k]] + 1];
    }
    assert ids[..|ids|] == ids;
  }

  /** BooleanSearchIds on the index's lookup data: the parser's failure, or the documents the
      parsed query selects, each once. */
  function Search(l: Lookup, allIds: seq<int>, query: string): (r: Result<seq<int>, IndexError>)
    requires l.Valid()
    ensures r.Failure? <==> Parse(query).Failure?
    ensures r.Failure? ==> r.error == QueryError(Parse(query).error)
    ensures r.Success? ==> WellTyped(Parse(query).value) && NoDuplicates(r.value)
    ensures r.Success? ==> forall d :: d in r.value <==> Matches(l, allIds, Parse(query).value, d)
  {
    var tree := Parse(query);
    if tree.Failure? then Failure(QueryError(tree.error))
    else
      ParseWellTyped(query);
      EvalMatches(l, allIds, tree.value);
      Success(Eval(l, allIds, tree.value))
  }

  /** A search selects only documents of the collection when the postings name only those. */
  lemma SearchWithin(l: Lookup, allIds: seq<int>, query: string)
    requires l.Valid()
    requires forall i, d :: 0 <= i < |l.postingKeys| && d in l.postingKeys[i] ==> d in allIds
    ensures Search(l, allIds, query).Success? ==> forall d :: d in Search(l, allIds, query).value ==> d in allIds
  {
    if Parse(query).Success? {
      ParseWellTyped(query);
      EvalWithin(l, allIds, Parse(query).value);
    }
  }

  /** The prefilter of VectorSpaceSearch: the AND query's documents, or the OR query's when
      the AND query selects fewer than five; an AND query that fails to parse fails it. */
  /** The prefiltered ids are document numbers when every posting is. */
  lemma PrefilterWithin(l: Lookup, n: nat, andQuery: string, orQuery: string)
    requires l.Valid()
    requires forall i, d :: 0 <= i < |l.postingKeys| && d in l.postingKeys[i] ==> 0 <= d < n
    ensures var r := PrefilterSearch(l, Range(0, n), andQuery, orQuery);
      r.Success? ==> forall k :: 0 <= k < |r.value| ==> 0 <= r.value[k] < n
  {
    var ids := Range(0, n);
    RangeMembers(0, n);
    SearchWithin(l, ids, andQuery);
    SearchWithin(l, ids, orQuery);
    var r := PrefilterSearch(l, ids, andQuery, orQuery);
    assert r.Success? ==> forall k :: 0 <= k < |r.value| ==> r.value[k] in r.value;
  }

  function PrefilterSearch(l: Lookup, allIds: seq<int>, andQuery: string, orQuery: string): (r: Result<seq<int>, IndexError>)
    requires l.Valid()
    ensures r.Failure? <==> Parse(andQuery).Failure? || (Parse(andQuery).Success? && |Search(l, allIds, andQuery).value| < 5 && Parse(orQuery).Failure?)
    ensures r.Success? ==> NoDuplicates(r.value)
    ensures r.Success? ==> r == Search(l, allIds, andQuery) || r == Search(l, allIds, orQuery)
  {
    var andIds :- Search(l, allIds, andQuery);
    if |andIds| < 5 then Search(l, allIds, orQuery) else Success(andIds)
  }
}
