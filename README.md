# IR_Sem search core in Dafny

This project models the search core of IR_Sem, a C# information-retrieval application for Czech news articles and TREC collections. It has three parts.

- **The boolean query language.** `BooleanQueryParser` turns a query such as `czechia AND (sea OR NOT lake)` into a binary expression tree:
  - a character scanner that recognises the operator words `AND`, `OR`, `NOT` and parentheses;
  - an implicit `OR` between adjacent literals;
  - a shunting-yard conversion to postfix (NOT 2, AND 1, OR 0);
  - a stack reduction to the tree.

  Both revisions of the parser are modelled. The model proves that they tokenize and parse every query identically.
- **The inverted index.** `InvertedIndex.Index` numbers the documents and their vocabulary. It builds:
  - a posting dictionary per term, with term frequencies and a document frequency;
  - per document, a term-id list and the matching posting entries.

  Boolean search evaluates a parse tree as set algebra over posting keys. Vector-space search:
  - prefilters candidates with a generated boolean query;
  - ranks the candidates by a similarity;
  - reports the top results and a hit count.
- **The preprocessing pipeline.** The analyzer applies, each step gated by the configuration:
  1. lower-casing;
  2. accent removal through a fixed character table;
  3. whitespace normalisation, then splitting and token filtering;
  4. stemming;
  5. stopword removal.

  It does this to the text a document exposes through `GetRelevantText`. The iDNES article's text is modelled in both of its revisions.

The modelling approach:

- Each imperative method of the source is a Dafny `method` with the same loop. Each is proved equal to a specification function, and the promises of the source are proved as lemmas about those functions.
- `Stopwords`, `Analyzer`, `BasicQuery` and `InvertedIndex` are classes whose methods update their fields. The index keeps its four arrays as Dafny arrays.
- Platform behaviour the code calls but does not define is a function-typed parameter or field:
  - `String.ToLower`;
  - the tokenizer's `Regex.Split`;
  - `Char.IsPunctuation`;
  - the Czech stemmer;
  - the analyzer as seen by the index;
  - the similarity score.
- Exceptions become `Failure` values of a `Result`, and `null` becomes `None`.

Files:

| file | contents |
|---|---|
| `wrappers.dfy` | Option and Result |
| `seqs.dfy` | sequence helpers, plus LINQ `Distinct` |
| `text.dfy` | `Char.IsWhiteSpace` and `String.Trim` |
| `accents.dfy` | accent removal |
| `tokenizer.dfy` | `Tokenizer` |
| `stopwords.dfy` | `Stopwords` |
| `analyzer.dfy`, `analyzer_legacy.dfy` | the two analyzers |
| `documents.dfy` | document kinds and `GetRelevantText` |
| `query_parser.dfy`, `query_parser_legacy.dfy` | the two parser revisions |
| `index_postings.dfy` | postings and the reference contents of every index structure |
| `index_query.dfy` | LINQ set operations and the tree evaluation |
| `index_search.dfy` | prefilter strings, lookups by id, query term counts, ranking and hit counting |
| `inverted_index.dfy` | the `InvertedIndex` class |

## Model

| member | source | states |
|---|---|---|
| Accents.SourceTableAligned | Model/Preprocessing/Accents.cs:15-20 | The replacement table is exactly as long as the accented-character table (401 characters each). The lookup at line 41 relies on this. |
| Accents.IndexOf | Model/Preprocessing/Accents.cs:33 | `String.IndexOf` returns -1 exactly when the character is absent. Otherwise it returns a position holding the character with no earlier occurrence. |
| Accents.FirstOccurrenceUnique | Model/Preprocessing/Accents.cs:33 | The first occurrence is unique, so a character listed twice in the table (such as Ä or Ũ) has one replacement, the one at its first position. |
| Accents.UnaccentMeaning | Model/Preprocessing/Accents.cs:33-41 | A character outside the table is copied. A table character becomes the plain character at the index of its first occurrence. |
| Accents.Unaccented | Model/Preprocessing/Accents.cs:27-46 | The result is as long as the input. Each character is mapped on its own. |
| Accents.UnaccentedAppend | Model/Preprocessing/Accents.cs:31-43 | Accent removal distributes over concatenation. |
| Accents.UnaccentedKeepsOtherText | Model/Preprocessing/Accents.cs:33-38 | A text containing no table character comes back unchanged. |
| Accents.RemoveAccents | Model/Preprocessing/Accents.cs:27-46 | The StringBuilder loop produces exactly the per-character mapping. |
| Text.Trim | Model/Preprocessing/Tokenizer.cs:98 | The result neither starts nor ends with white space. It is a contiguous slice of the input, with only white space cut off on each side. |
| Text.TrimEmptyIff | Model/Preprocessing/Tokenizer.cs:87 | A token trims to the empty string exactly when it is all white space. |
| Text.TrimIdempotent | Model/Preprocessing/Tokenizer.cs:98 | Trimming twice is trimming once. |
| Tokenizer.ReplaceNewlines | Model/Preprocessing/Tokenizer.cs:74 | Every `\n` becomes a space. Every other character stays where it is. |
| Tokenizer.CollapseFirst | Model/Preprocessing/Tokenizer.cs:75 | The collapsed text starts with white space exactly when the original does. |
| Tokenizer.CollapseSingleSpaced | Model/Preprocessing/Tokenizer.cs:75 | After collapsing, every white-space character is a plain space and no two are adjacent. |
| Tokenizer.CollapseKeepsText | Model/Preprocessing/Tokenizer.cs:75 | Collapsing keeps every non-white character, in order. |
| Tokenizer.CollapseIgnoresNewlines | Model/Preprocessing/Tokenizer.cs:74-75 | Replacing newlines first does not change the collapsed text. |
| Tokenizer.Filtered | Model/Preprocessing/Tokenizer.cs:82-102 | Filtering never adds tokens. |
| Tokenizer.FilterTokens | Model/Preprocessing/Tokenizer.cs:82-102 | The loop keeps, in order, the trimmed form of each token that is neither blank nor a single punctuation character. |
| Tokenizer.FilteredMembers | Model/Preprocessing/Tokenizer.cs:84-99 | x is in the output exactly when some input token passes both tests and trims to x. |
| Tokenizer.FilteredTokensTrimmed | Model/Preprocessing/Tokenizer.cs:98 | Every output token is non-empty and has no surrounding white space. |
| Tokenizer.FilteredAppend | Model/Preprocessing/Tokenizer.cs:84-101 | Filtering distributes over concatenation, so it preserves the order of the split pieces. |
| Tokenizer.PaddedPunctuationKept | Model/Preprocessing/Tokenizer.cs:91-98 | `","` is dropped. `" ,"` survives as `","`, because the length test looks at the untrimmed token. |
| Tokenizer.Tokenize | Model/Preprocessing/Tokenizer.cs:72-80 | The tokens are the filtered split of the newline-free, single-spaced text. Each one is non-empty and trimmed. |
| StopwordList.Stopwords.constructor | Model/Preprocessing/Stopwords.cs:12-13 | A new filter has an empty list and the default configuration, with every switch on. |
| StopwordList.Stopwords.RemoveStopwords | Model/Preprocessing/Stopwords.cs:21-32 | The result holds exactly the tokens that are not stopwords, in input order. |
| StopwordList.Stopwords.LoadStopwords | Model/Preprocessing/Stopwords.cs:41-59 | Each line is rewritten in place: trimmed, then lower-cased, then stripped of accents, each when configured. The list is replaced by the rewritten lines. |
| StopwordList.Stopwords.NormalizeLine | Model/Preprocessing/Stopwords.cs:50-58 | One line goes through the configured trim, lower-case and accent steps. |
| StopwordList.Stopwords.SetConfig | Model/Preprocessing/Stopwords.cs:61-64 | The configuration is replaced and the list is untouched. |
| StopwordList.WithoutMembers | Model/Preprocessing/Stopwords.cs:24-31 | x survives exactly when it is an input token and not a stopword. |
| StopwordList.WithoutSubsequence | Model/Preprocessing/Stopwords.cs:21-32 | The output is a subsequence of the input. |
| StopwordList.WithoutUnchangedIff | Model/Preprocessing/Stopwords.cs:21-32 | The filter is the identity exactly when no input token is a stopword; in particular, it is the identity for an empty list. |
| StopwordList.WithoutIdempotent | Model/Preprocessing/Stopwords.cs:21-32 | Filtering twice is filtering once. |
| StopwordList.WithoutAppend | Model/Preprocessing/Stopwords.cs:21-32 | Filtering distributes over concatenation. |
| Analysis.Analyzer.Create | src/Model/Preprocessing/Analyzer.cs:14-36 | Construction fails exactly when stemming is requested without a stemmer, and then changes nothing. Otherwise a missing filter becomes a fresh empty one with the default configuration. A given filter receives the analyzer's configuration and keeps its list. |
| Analysis.Analyzer.Init | src/Model/Preprocessing/Analyzer.cs:23-35 | The field assignments and the stopword configuration hand-over, once the stemmer check has passed. |
| Analysis.Analyzer.Preprocess | src/Model/Preprocessing/Analyzer.cs:43-67 | The terms are the ones the pipeline produces, and none of them is a stopword. |
| Analysis.Analyzer.Tokenize | src/Model/Preprocessing/Analyzer.cs:74-77 | The passthrough applies the tokenizer alone, with no case, accent or stopword processing. |
| Analysis.AnalyzedHasNoStopwords | src/Model/Preprocessing/Analyzer.cs:64 | No term the pipeline returns is in the stopword list. |
| Analysis.AnalyzedWithSwitchesOff | src/Model/Preprocessing/Analyzer.cs:43-67 | With every switch off, the terms are the stopword-filtered tokens of the raw text. Each term is non-empty and trimmed. |
| Analysis.StemmerUnusedWhenOff | src/Model/Preprocessing/Analyzer.cs:59-62 | Without the stemming switch, the stemmer is never consulted. With it and a stemmer, the stemmer sees the tokenizer's output. |
| Analysis.EmptyStopwordsRemoveNothing | src/Model/Preprocessing/Analyzer.cs:25-29 | An analyzer whose filter has an empty list returns the stemmed tokens unfiltered. |
| Analysis.PreparedLength | src/Model/Preprocessing/Analyzer.cs:51-55 | Without lower-casing, accent removal keeps the text's length. |
| AnalysisLegacy.LegacyAnalyzer.constructor | Model/Preprocessing/Analyzer.cs:18-34 | There is no stemmer check. Stopword handling is the same as in the src revision. |
| AnalysisLegacy.LegacyAnalyzer.Preprocess | Model/Preprocessing/Analyzer.cs:41-64 | The run fails (null dereference) exactly when stemming is configured without a stemmer. Otherwise it follows the same pipeline over the older document text. |
| AnalysisLegacy.LegacyAgreesWithSrc | Model/Preprocessing/Analyzer.cs:56-59 | Whenever the older pipeline succeeds, it returns the src revision's terms. |
| AnalysisLegacy.LegacyWithSwitchesOff | Model/Preprocessing/Analyzer.cs:41-64 | With every switch off, it returns the stopword-filtered tokens of the raw text. |
| Documents.CommentTexts | Common/Documents/Idnes/Comment.cs:22-25 | Each comment contributes its author, a newline and its text, in list order. |
| Documents.AppendTerminated | src/Common/Documents/Idnes/Article.cs:40-43 | The `s += item + sep` loop appends each item followed by the separator, in order. |
| Documents.GetRelevantText | src/Common/Documents/Idnes/Article.cs:35-47 | It returns the src article text. |
| Documents.LegacyGetRelevantText | Common/Documents/Idnes/Article.cs:32-62 | Its four loops return the older article text. |
| Documents.TerminatedAppend | src/Common/Documents/Idnes/Article.cs:40-43 | The text built from a concatenated list is the concatenation of the two texts. |
| Documents.TerminatedLength | src/Common/Documents/Idnes/Article.cs:40-43 | Each item adds its own length plus the separator's length. |
| Documents.TerminatedItem | src/Common/Documents/Idnes/Article.cs:40-43 | Item i, followed by its separator, comes right after items 0 to i-1. |
| Documents.ArticleTextShape | src/Common/Documents/Idnes/Article.cs:38-46 | The text starts with headline, opener and text, each closed by a newline. Tag i follows the earlier tags and is followed by one space. The text ends with a newline. |
| Documents.ArticleTextLength | src/Common/Documents/Idnes/Article.cs:38-46 | The length is \|H\|+\|O\|+\|T\|+3 plus the sum of (\|tag\|+1), plus 1. |
| Documents.ArticleTextIgnoresOtherFields | src/Common/Documents/Idnes/Article.cs:37-47 | Authors, dates, related articles and comments do not affect the text. |
| Documents.LegacyArticleTextWithoutExtras | Common/Documents/Idnes/Article.cs:34-47 | Without authors, related articles and comments, the older text is the src text plus one extra empty line after the header. |
| Documents.LegacyCommentLines | Common/Documents/Idnes/Article.cs:56-59 | Comment i contributes `Author + "\n" + Text + "\n"`, after the earlier comments. |
| Documents.LegacyArticleTextShape | Common/Documents/Idnes/Article.cs:34-61 | The older text starts with the header, one author line and one tag line, and ends with the comment lines. |
| Documents.LegacyAuthorLine | Common/Documents/Idnes/Article.cs:36-40 | Author i, followed by one space, comes right after the header and the earlier authors. |
| Documents.LegacyTagLine | Common/Documents/Idnes/Article.cs:43-47 | Tag i, followed by one space, comes right after the author line and the earlier tags. |
| Documents.LegacyRelatedArticleLine | Common/Documents/Idnes/Article.cs:50-53 | Related article i has a line of its own, after the tag line and the earlier related articles. |
| BooleanQueryParser.OperatorAt | src/Common/Utils/BooleanQueryParser.cs:199-273 | With an empty buffer, an operator is taken exactly when AND, OR or NOT stands at that position and is followed by the end, a space or a parenthesis. |
| BooleanQueryParser.ScanRawTokens | src/Common/Utils/BooleanQueryParser.cs:159-283 | The scanning loop, with its index jumps, produces the raw token list of the scan function. |
| BooleanQueryParser.Tokenize | src/Common/Utils/BooleanQueryParser.cs:157-301 | It returns the raw tokens with the implicit OR inserted, as the helper IsNextTokenOperator decides. |
| BooleanQueryParser.PopUntilOpen | src/Common/Utils/BooleanQueryParser.cs:95-100 | After the popping loop, the stack is empty or has `(` on top, so the "Malformed query" test can never succeed. |
| BooleanQueryParser.InfixToPostfix | src/Common/Utils/BooleanQueryParser.cs:76-125 | The stack loop produces the postfix of the reference conversion, failure included. |
| BooleanQueryParser.PostfixToTree | src/Common/Utils/BooleanQueryParser.cs:37-68 | The stack reduction produces the reference tree, failure included. |
| BooleanQueryParser.ParseQuery | src/Common/Utils/BooleanQueryParser.cs:24-30 | It composes tokenizing, conversion and reduction. |
| BooleanQueryParser.ScanFromWellFormed | src/Common/Utils/BooleanQueryParser.cs:167-174 | A space flushes the buffer, so no raw token is empty or contains a space. |
| BooleanQueryParser.TokensWellFormed | src/Common/Utils/BooleanQueryParser.cs:280-300 | No final token is empty or contains a space. |
| BooleanQueryParser.ScanAccumulates | src/Common/Utils/BooleanQueryParser.cs:274-276 | With a non-empty buffer, ordinary characters, including operator letters, are appended to the buffer. |
| BooleanQueryParser.ScanJoinedWords | src/Common/Utils/BooleanQueryParser.cs:162-283 | Words without spaces or parentheses, joined by single spaces, scan back to exactly those words. |
| BooleanQueryParser.WithImplicitOrShape | src/Common/Utils/BooleanQueryParser.cs:285-300 | The pass keeps the literals and their order, and leaves no two literals adjacent. |
| BooleanQueryParser.WithImplicitOrFixedIff | src/Common/Utils/BooleanQueryParser.cs:294 | The pass changes a token list exactly when the list has two adjacent literals. |
| BooleanQueryParser.WithImplicitOrIdempotent | src/Common/Utils/BooleanQueryParser.cs:285-300 | Applying the pass twice is applying it once. |
| BooleanQueryParser.PostfixFailsIff | src/Common/Utils/BooleanQueryParser.cs:93-107 | Conversion fails (Pop on an empty stack) exactly when some `)` has no unclosed `(` before it. |
| BooleanQueryParser.PostfixOutput | src/Common/Utils/BooleanQueryParser.cs:81-122 | The postfix keeps the literals in their original order and contains no `)`. Each unmatched `(` is passed into the output. |
| BooleanQueryParser.BinaryPrecedence | src/Common/Utils/BooleanQueryParser.cs:109-116 | In `a op1 b op2 c`, the stronger op2 binds first. Otherwise the grouping is left-associative. |
| BooleanQueryParser.NotBindsTightest | src/Common/Utils/BooleanQueryParser.cs:132-145 | `NOT a op b` negates a alone. |
| BooleanQueryParser.PostfixOfOneOperator | src/Common/Utils/BooleanQueryParser.cs:109-122 | `a op b` converts to `a b op`. |
| BooleanQueryParser.TreeRoundTrip | src/Common/Utils/BooleanQueryParser.cs:37-68 | Reducing the post-order listing of a well-typed tree gives that tree back. |
| BooleanQueryParser.TreeKeepsLastOperand | src/Common/Utils/BooleanQueryParser.cs:67 | With two complete operands on the stack, the result is the top one. |
| BooleanQueryParser.TreeFromWellTyped | src/Common/Utils/BooleanQueryParser.cs:44-63 | Every node the reduction builds is well typed: NOT has one child, AND and OR have two, and a literal is a leaf. |
| BooleanQueryParser.ParseWellTyped | src/Common/Utils/BooleanQueryParser.cs:24-30 | Every parsed tree is well typed. |
| BooleanQueryParser.AdjacentWordsMeanOr | src/Common/Utils/BooleanQueryParser.cs:285-298 | `a b` parses exactly like `a OR b`, to an OR node of the two leaves. |
| BooleanQueryParser.NotAfterWordDropsWord | src/Common/Utils/BooleanQueryParser.cs:53-67 | `a NOT b` parses to `NOT b`, because the reduction returns only the top of its stack. |
| BooleanQueryParser.ParenthesisGluesToNextWord | src/Common/Utils/BooleanQueryParser.cs:175-198 | `a(b` scans to the literal `a` and the literal `(b`. |
| BooleanQueryParser.OperatorLettersInsideWords | src/Common/Utils/BooleanQueryParser.cs:199-223 | `ANDY` and `fishAND` are literals joined by the implicit OR. A free-standing AND between them is an operator. |
| BooleanQueryParserLegacy.Tokenize | Common/Utils/BooleanQueryParser.cs:129-272 | The inline implicit-OR test returns the src revision's tokens on every input. |
| BooleanQueryParserLegacy.ParseQuery | Common/Utils/BooleanQueryParser.cs:14-20 | The older parser gives the src revision's result on every input, failure included. |
| Postings.PostingsOf | Model/Indexing/InvertedIndex.cs:185-191 | There is one posting per token, in token order, all with the document's id. |
| Postings.CreatePostings | Model/Indexing/InvertedIndex.cs:185-191 | The loop appends the document's postings to the list. |
| Postings.PostingsOfMembers | Model/Indexing/InvertedIndex.cs:187-190 | A posting (t, d) occurs exactly when d is the document and t one of its tokens, as often as t occurs. |
| Postings.AllPostingsMembers | Model/Indexing/InvertedIndex.cs:89-98 | (t, d) is a posting of the collection exactly when d is a document id and t occurs in document d. The number of such postings is t's count there. |
| Postings.AllPostingsOrdered | Model/Indexing/InvertedIndex.cs:89-98 | The postings come in document order, with ids in 0..n-1. |
| Postings.UniqueTermsMembers | Model/Indexing/InvertedIndex.cs:174-177 | The vocabulary has no duplicates and holds exactly the terms occurring in some document. |
| Postings.EntriesKeys | Model/Indexing/InvertedIndex.cs:145-158 | A term's dictionary has distinct keys: exactly the documents with a posting of the term. |
| Postings.EntriesTf | Model/Indexing/InvertedIndex.cs:145-152 | Each entry's frequency is the number of postings of the term in that document, and at least 1. |
| Postings.EntriesAscending | Model/Indexing/InvertedIndex.cs:158 | For postings in document order, the dictionary keys come in ascending order. |
| Postings.DocumentFrequencyCounts | Model/Indexing/InvertedIndex.cs:166-172 | A term's dictionary size is the number of documents containing the term. |
| Postings.TermEntries | Model/Indexing/InvertedIndex.cs:126-160 | A term's dictionary has ascending, distinct keys, which are exactly the documents containing the term. Each frequency is the term's count in its document. |
| Postings.VocabularyInverse | Model/Indexing/InvertedIndex.cs:108-114 | TermIdMap and IdTermMap are inverse bijections over 0..#terms-1. |
| Postings.DocTermIdsMeaning | Model/Indexing/InvertedIndex.cs:133-136 | A document's term-id list has no duplicates and holds exactly the ids of the terms occurring in it. |
| Postings.NoOverflowWithSlotPerDocument | Model/Indexing/InvertedIndex.cs:104-107 | With one slot per document, no posting indexes outside the per-document arrays. |
| Postings.VocabularySizedArraysOverflow | Model/Indexing/InvertedIndex.cs:106-107 | Two documents that both contain only "a" give a one-term vocabulary, and document 1 falls outside the arrays. |
| Postings.TokenlessDocumentDoesNotOverflow | Model/Indexing/InvertedIndex.cs:106-107 | For [["a"], []], document 1 is not below the one-term vocabulary, yet nothing overflows: a document without tokens has no postings, so it never indexes the arrays. |
| QueryEvaluation.Where | Model/Indexing/InvertedIndex.cs:253 | The filter keeps exactly the elements whose membership in b is as required, with no duplicates if the input has none. |
| QueryEvaluation.Except | Model/Indexing/InvertedIndex.cs:253 | LINQ Except returns the distinct elements of a that are not in b. |
| QueryEvaluation.Intersect | Model/Indexing/InvertedIndex.cs:268 | LINQ Intersect returns the distinct elements of a that are also in b. |
| QueryEvaluation.Union | Model/Indexing/InvertedIndex.cs:272 | LINQ Union returns the distinct elements that are in a or in b. |
| QueryEvaluation.TermDocs | Model/Indexing/InvertedIndex.cs:284-308 | A term's documents are duplicate-free. They are the dictionary keys of its first preprocessed token, or nothing when there is no such token or it is unknown. |
| QueryEvaluation.EvalMatches | Model/Indexing/InvertedIndex.cs:240-276 | Evaluation returns each matching document once. The reference is: term postings, complement within all ids for NOT, intersection for AND, union for OR. The empty-operands shortcut changes nothing. |
| QueryEvaluation.EvalWithin | Model/Indexing/InvertedIndex.cs:253 | Every result is an indexed id. |
| QueryEvaluation.DoubleNegation | Model/Indexing/InvertedIndex.cs:249-253 | `NOT NOT q` matches the indexed documents that q matches. |
| QueryEvaluation.Insert | Model/Indexing/InvertedIndex.cs:202 | Insertion adds exactly one element. |
| QueryEvaluation.Sort | Model/Indexing/InvertedIndex.cs:202 | List.Sort returns a non-decreasing permutation of its input. |
| QueryEvaluation.SortDistinct | Model/Indexing/InvertedIndex.cs:202 | Sorting distinct ids gives a strictly ascending list of the same ids. |
| IndexSearch.JoinTokens | Model/Indexing/InvertedIndex.cs:391-401 | The loop puts the separator after every token but the last. |
| IndexSearch.Interleave | Model/Indexing/InvertedIndex.cs:389-430 | The tokens are at the even positions and the operator at the odd ones. |
| IndexSearch.JoinWithIsJoinBySpace | Model/Indexing/InvertedIndex.cs:395 | Joining with `" " + op + " "` is the space-joined list of tokens interleaved with op. |
| IndexSearch.PrefilterQueryTokens | Model/Indexing/InvertedIndex.cs:383-433 | Analyzer tokens that are plain words and not operators tokenize back as `t1 op t2 op ...`. |
| IndexSearch.InterleaveNoAdjacentLiterals | Model/Indexing/InvertedIndex.cs:395 | The prefilter query needs no implicit OR. |
| IndexSearch.ByIdsMeaning | Model/Indexing/InvertedIndex.cs:542-554 | It succeeds exactly when every id is in range, and returns the documents in the caller's order. Otherwise it fails at the first bad id: NonExistentDocument when the id is too large, ArgumentOutOfRange when it is negative. |
| IndexSearch.ByIdsPrefixFailure | Model/Indexing/InvertedIndex.cs:545-551 | A failure on a prefix of the ids is the failure on all of them. |
| IndexSearch.KnownIds | Model/Indexing/InvertedIndex.cs:491-497 | Every id collected is a vocabulary id. |
| IndexSearch.KnownIdsCount | Model/Indexing/InvertedIndex.cs:505-511 | Term id i occurs among the collected ids as often as term i among the tokens. |
| IndexSearch.KnownIdsEmpty | Model/Indexing/InvertedIndex.cs:499-502 | No id is collected exactly when no token is in the vocabulary. |
| IndexSearch.ScoresOf | Model/Indexing/InvertedIndex.cs:348-353 | Each candidate is paired with its similarity, in candidate order. |
| IndexSearch.InsertByScore | Model/Indexing/InvertedIndex.cs:363 | Insertion adds exactly one entry. |
| IndexSearch.RankByScore | Model/Indexing/InvertedIndex.cs:363 | OrderByDescending gives a permutation of the entries with non-increasing scores. |
| IndexSearch.TopK | Model/Indexing/InvertedIndex.cs:363-372 | The loop stops at TopCount or at the end: the first min(TopCount, n) ranked entries, or all of them when TopCount is negative. |
| IndexSearch.TopKByScore | Model/Indexing/InvertedIndex.cs:356-372 | The top results are ranked entries in non-increasing order. No left-out entry scores above a returned one. |
| IndexSearch.RankIsStable | Model/Indexing/InvertedIndex.cs:363 | For every score, the entries with that score keep their candidate order in the ranking, as the stable OrderByDescending does. |
| IndexSearch.NonZeroCount | Model/Indexing/InvertedIndex.cs:374 | The intended hit count is at most the number of candidates. |
| IndexSearch.NonZeroCountAll | Model/Indexing/InvertedIndex.cs:374 | The intended count equals the number of candidates exactly when no similarity is zero. |
| IndexSearch.AsWrittenCountsAllButFirst | Model/Indexing/InvertedIndex.cs:374 | The count as written is the number of candidates minus one, whatever the scores. |
| IndexSearch.AsWrittenMissesTheOnlyHit | Model/Indexing/InvertedIndex.cs:374 | For one candidate with similarity 0.5, the written count is 0 and the intended count is 1. |
| InvertedIndexing.BasicQuery.constructor | Model/Queries/BasicQuery.cs:12-16 | A query holds its text and the number of results wanted. |
| InvertedIndexing.TokenLists | Model/Indexing/InvertedIndex.cs:89-93 | Document i's terms are the analyzer's output for the i-th input document. |
| InvertedIndexing.InvertedIndex.constructor | Model/Indexing/InvertedIndex.cs:73-78 | A new index is unbuilt, empty and valid. |
| InvertedIndexing.InvertedIndex.Index | Model/Indexing/InvertedIndex.cs:80-120 | A second call fails with AlreadyIndexed and changes nothing. A first call stores the documents in input order, sets Indexed, and leaves every structure built from all postings. |
| InvertedIndexing.InvertedIndex.Build | Model/Indexing/InvertedIndex.cs:87-119 | From an empty index, the build leaves an indexed, valid index of exactly the given documents. |
| InvertedIndexing.InvertedIndex.IndexAsWritten | Model/Indexing/InvertedIndex.cs:80-120 | With vocabulary-sized per-document arrays, it fails with IndexOutOfRange, Indexed unset, exactly when some posting's document id is not below the vocabulary size. Otherwise it succeeds with a valid index. |
| InvertedIndexing.InvertedIndex.CollectDocuments | Model/Indexing/InvertedIndex.cs:87-98 | Documents are stored in order with ids 0..n-1, and the postings are those of all documents. |
| InvertedIndexing.InvertedIndex.InitializeStructures | Model/Indexing/InvertedIndex.cs:100-114 | It numbers the vocabulary in order, so TermIdMap and IdTermMap are inverse. Every dictionary and per-document list starts empty. |
| InvertedIndexing.InvertedIndex.CreateInvertedIndex | Model/Indexing/InvertedIndex.cs:126-164 | It succeeds exactly when every posting's document has a slot. The structures then hold what the postings determine, with each document frequency equal to its dictionary size. |
| InvertedIndexing.InvertedIndex.AddPostings | Model/Indexing/InvertedIndex.cs:128-160 | The loop processes the postings in order and stops at the first posting whose document has no slot. |
| InvertedIndexing.InvertedIndex.AddPosting | Model/Indexing/InvertedIndex.cs:130-159 | One posting is processed exactly when its document has a slot. The structures then reflect one more posting. |
| InvertedIndexing.InvertedIndex.WritePosting | Model/Indexing/InvertedIndex.cs:133-158 | The term id is appended if new. The frequency goes up, or a new entry with frequency 1 is added to both the dictionary and the document's list. |
| InvertedIndexing.InvertedIndex.CalculateDFValues | Model/Indexing/InvertedIndex.cs:166-172 | Each document frequency becomes its dictionary size. Nothing else changes. |
| InvertedIndexing.InvertedIndex.IndexContents | Model/Indexing/InvertedIndex.cs:126-172 | For a valid index: a term's keys are ascending and are exactly the documents containing it, each frequency is the term's count there, and the document frequency is the number of such documents. |
| InvertedIndexing.InvertedIndex.VocabularyContents | Model/Indexing/InvertedIndex.cs:100-114 | A term has an id exactly when it occurs in some indexed document. |
| InvertedIndexing.InvertedIndex.DocumentTermListsMatchIndex | Model/Indexing/InvertedIndex.cs:133-159 | A document's term-id list and DocumentValue list have equal length. Entry i of the latter belongs to the document and is in the dictionary of term id i. |
| InvertedIndexing.InvertedIndex.DocumentTermIdsMatchDocument | Model/Indexing/InvertedIndex.cs:130-137 | In a valid index, a document's term-id list has no duplicates and holds a known term's id exactly when the analyzed document contains the term. |
| InvertedIndexing.InvertedIndex.GetDocumentsForTerm | Model/Indexing/InvertedIndex.cs:284-308 | It returns the term's documents as defined by the reference lookup. |
| InvertedIndexing.InvertedIndex.GetDocumentsForQuery | Model/Indexing/InvertedIndex.cs:240-276 | The recursion returns the evaluation of the tree against all document ids. |
| InvertedIndexing.InvertedIndex.SearchIds | Model/Indexing/InvertedIndex.cs:228-233 | A boolean search fails exactly when parsing fails. Otherwise it returns, once each, the indexed documents the parsed tree matches. |
| InvertedIndexing.InvertedIndex.BooleanSearchIds | Model/Indexing/InvertedIndex.cs:228-233 | Parsing and evaluation give that search result. |
| InvertedIndexing.InvertedIndex.Hits | Model/Indexing/InvertedIndex.cs:200-202 | The sorted hits are strictly ascending, are the same ids as the search result, and are all in range. |
| InvertedIndexing.InvertedIndex.SortedHits | Model/Indexing/InvertedIndex.cs:200-207 | It returns the sorted hits, or the parse failure. |
| InvertedIndexing.InvertedIndex.BooleanSearch | Model/Indexing/InvertedIndex.cs:198-221 | It returns (∅, 0) when nothing matches. Otherwise a TopCount of -1 is replaced by the total. It returns the first min(total, TopCount) documents of the ascending hits, with the untruncated total. |
| InvertedIndexing.InvertedIndex.FirstDocuments | Model/Indexing/InvertedIndex.cs:215-218 | The loop returns the documents of the first ids, none when the limit is negative. |
| InvertedIndexing.InvertedIndex.GetDocumentsByIds | Model/Indexing/InvertedIndex.cs:542-554 | It returns the documents in the caller's id order, or the exception of the first bad id. |
| InvertedIndexing.InvertedIndex.PreprocessQueryForPrefiltering | Model/Indexing/InvertedIndex.cs:383-433 | All three branches build the analyzer tokens joined by `" " + op + " "`. |
| InvertedIndexing.InvertedIndex.GetQueryVector | Model/Indexing/InvertedIndex.cs:485-511 | It returns nothing exactly when no query term is in the vocabulary. Otherwise entry i is the number of occurrences of term i among the query's terms. |
| InvertedIndexing.InvertedIndex.KnownTermIds | Model/Indexing/InvertedIndex.cs:488-497 | It returns the ids of the vocabulary tokens, in token order. |
| InvertedIndexing.InvertedIndex.Prefiltered | Model/Indexing/InvertedIndex.cs:335-339 | The prefiltered candidates are distinct document ids in range. |
| InvertedIndexing.InvertedIndex.VectorSpaceSearch | Model/Indexing/InvertedIndex.cs:317-375 | The result and the new TopCount are those of the vector-search outcome for this query. |
| InvertedIndexing.InvertedIndex.RankedSearch | Model/Indexing/InvertedIndex.cs:320-374 | The same outcome, with the new TopCount returned instead of stored. |
| InvertedIndexing.InvertedIndex.RankCandidates | Model/Indexing/InvertedIndex.cs:346-374 | Scoring, ranking and truncating non-empty candidates gives the outcome's results, count and scores. |
| InvertedIndexing.InvertedIndex.PrefilterCandidates | Model/Indexing/InvertedIndex.cs:335-339 | It returns the AND prefilter, retried with OR when the AND prefilter has fewer than 5 hits. |
| InvertedIndexing.InvertedIndex.ScoreCandidates | Model/Indexing/InvertedIndex.cs:346-353 | The loop pairs each candidate with its similarity. |
| InvertedIndexing.InvertedIndex.TopDocuments | Model/Indexing/InvertedIndex.cs:363-372 | The loop returns the documents and scores of the top entries, in rank order. |
| InvertedIndexing.QueryIdsCount | Model/Indexing/InvertedIndex.cs:505-511 | The query vector has one slot per term, and every counted id fits in it. Slot i receives the count of term i. |
| InvertedIndexing.VocabularySize | Model/Indexing/InvertedIndex.cs:505 | TermIdMap.Count equals the vocabulary size. |
| InvertedIndexing.DictionaryKeys | Model/Indexing/InvertedIndex.cs:301-304 | Each term's posting keys are distinct document ids in range. |
| InvertedIndexing.VectorOutcome | Model/Indexing/InvertedIndex.cs:317-375 | The search fails only through a failing prefilter parse. It returns empty results when no query term is known or no candidate remains. Otherwise TopCount -1 becomes the number of candidates. |
| InvertedIndexing.CountIds | Model/Indexing/InvertedIndex.cs:505-511 | The `vector[termId] += 1` loop gives each slot the number of occurrences of its id. |
| InvertedIndexing.Search | Model/Indexing/InvertedIndex.cs:228-233 | For any lookup: failure exactly when parsing fails, otherwise the distinct matching documents. |
| InvertedIndexing.PrefilterSearch | Model/Indexing/InvertedIndex.cs:335-339 | The result is the AND search when it has at least 5 hits and the OR search otherwise. It fails when the parse it needs fails. |
| InvertedIndexing.PrefilterWithin | Model/Indexing/InvertedIndex.cs:335-339 | Every prefiltered candidate is a document id in range. |

## Left out

- String.ToLower, the tokenizer's Regex.Split and its URL/date pattern, Char.IsPunctuation, and the Czech stemmer are function-valued parameters. Their culture rules, regular expressions and stemming are not modelled.
- The TF-IDF weights, cosine similarity, vector norms and GetDocumentVector are not modelled. They use floating point, Math.Log10 and Math.Sqrt. The similarity is a parameter from document id to a real number.
- InvertedIndexing.InvertedIndex.GetQueryVector: returns the term counts, which are the weighting's input, rather than the TF-IDF weighted float array. It returns a sequence rather than an array.
- InvertedIndexing.InvertedIndex.VectorSpaceSearch: ranks with a total order on reals, so it does not model float rounding. Equal scores keep their candidate order, as OrderByDescending does.
- InvertedIndexing.InvertedIndex.Index: does not set `document.Id = i` (line 96), because document objects are values here. The position in `documents` is the id.
- InvertedIndexing.InvertedIndex.IndexAsWritten: leaves the state after the exception unspecified apart from `Indexed` staying false. The source leaves its half-built structures behind.
- The DocumentValue objects the source shares between a posting dictionary and DocumentTermList are two value copies, updated in lockstep. Aliasing is not modelled.
- A posting dictionary (Dictionary<int, DocumentValue>) is a sequence of entries in insertion order. Enumeration order is insertion order, which is ascending document id.
- Null entries of DocumentIndex (terms before their first posting) are empty dictionaries.
- IndexConfig, the index Name and ToString, and the Tokenizer's unused stopwords field are not modelled, because nothing in the core reads them.
- BasicQuery.QueryText is fixed at creation, since no search changes it. The default values (empty text, TopCount 10) are constructor arguments.
- StopwordList.Stopwords.LoadStopwords: takes the file's lines as an array instead of reading the file. The file read is I/O.
- LoadStopwords does not stem the stopwords: Stopwords.cs:41-59 only trims, lower-cases and removes accents.
- Accents.RemoveAccents: the test vectors (`crème brûlée`, `áčďéěíňóřšťúůýž`) are not evaluated. The per-character lookup and first-occurrence rule are proved for any aligned table. Evaluating the 401-character table symbol by symbol is left out.
- Document loading from JSON and text files, the controllers, the database and the WPF user interface are outside the core.
- TrecDocument and the plain Document are modelled only through GetRelevantText (`Title + " " + Text` and `Text`).
- The TREC evaluation Topic (src/Common/Documents/Trec/Topic.cs, whose GetRelevantText returns its Title) is not a document kind of the model. Its text is a single field, and in the older revision (Common/Documents/Trec/Topic.cs) it is a plain record with no GetRelevantText.

## Findings

| source | as written | input that shows it | evidently intended | confidence | as-written member | corrected member |
|---|---|---|---|---|---|---|
| Model/Indexing/InvertedIndex.cs:106-107 | DocumentTermIdList and DocumentTermList are allocated with one slot per vocabulary term but indexed by document id (lines 133, 155). | Two documents that both analyze to `["a"]`: the vocabulary has one term, and document 1 indexes slot 1 of a one-slot array (IndexOutOfRangeException). | One slot per document. | not executed | InvertedIndexing.InvertedIndex.IndexAsWritten, Postings.VocabularySizedArraysOverflow | InvertedIndexing.InvertedIndex.Index, Postings.NoOverflowWithSlotPerDocument |
| Model/Indexing/InvertedIndex.cs:374 | `Where((id, cos) => cos != 0)` is LINQ's indexed overload, so `cos` is the entry's position, and the count is the number of candidates minus one. | One prefiltered document with similarity 0.5: the reported count is 0. | The number of candidates with a non-zero similarity. | not executed | IndexSearch.AsWrittenCountsAllButFirst, IndexSearch.AsWrittenMissesTheOnlyHit | IndexSearch.NonZeroCountAll, InvertedIndexing.VectorOutcome |
