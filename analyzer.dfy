/**
  src/Model/Preprocessing/Analyzer.cs: the preprocessing pipeline that turns a document into
  index terms. The .NET calls it makes (String.ToLower, the tokenizer's Regex.Split,
  Char.IsPunctuation) and the accent table travel together as a Runtime value; the Czech
  stemmer is an optional function on token lists.
*/
module Analysis {
  import opened Wrappers
  import opened Config
  import opened Text
  import opened Accents
  import opened StopwordList
  import opened Documents
  import Tokenizer

  datatype Runtime = Runtime(
    toLower: string -> string,
    split: string -> seq<string>,
    isPunctuation: char -> bool,
    accents: AlignedTable)

  type Stemmer = seq<string> -> seq<string>

  datatype AnalyzerError =
    | StemmerMissing   // InvalidOperationException from the src constructor
    | NullStemmer      // NullReferenceException from the older Preprocess

  /** The text as the tokenizer receives it: lower-cased, then stripped of accents, each when
      configured. */
  function Prepared(text: string, config: AnalyzerConfig, rt: Runtime): string {
    var lowered := if config.lowercase then rt.toLower(text) else text;
    if config.removeAccents then Unaccented(rt.accents, lowered) else lowered
  }

  /** The tokens before stopword removal: stemmed when configured and a stemmer is present. */
  function Stemmed(tokens: seq<string>, config: AnalyzerConfig, stemmer: Option<Stemmer>): seq<string> {
    if config.performStemming && stemmer.Some? then stemmer.value(tokens) else tokens
  }

  /** Analyzer.Preprocess applied to a text, for a given stopword list. */
  function Analyzed(text: string, config: AnalyzerConfig, stemmer: Option<Stemmer>, stopwords: seq<string>, rt: Runtime): seq<string> {
    var tokens := Tokenizer.Tokens(Prepared(text, config, rt), rt.split, rt.isPunctuation);
    Without(Stemmed(tokens, config, stemmer), stopwords)
  }

  class Analyzer {
    const runtime: Runtime
    var stemmer: Option<Stemmer>
    var config: AnalyzerConfig
    var stopwords: Stopwords

    /** What the src constructor guarantees: stemming is only configured with a stemmer. */
    ghost predicate Valid()
      reads this
    {
      stemmer.Some? || !config.performStemming
    }

    /** The field assignments of the constructor, once the stemmer check has passed. */
    constructor Init(rt: Runtime, stemmer: Option<Stemmer>, stopwords: Stopwords?, config: AnalyzerConfig)
      requires stemmer.Some? || !config.performStemming
      modifies stopwords
      ensures runtime == rt && this.stemmer == stemmer && this.config == config && Valid()
      ensures stopwords == null ==> fresh(this.stopwords) && this.stopwords.stopwordsList == [] && this.stopwords.config == DefaultConfig
      ensures stopwords != null ==> this.stopwords == stopwords && stopwords.config == config && stopwords.stopwordsList == old(stopwords.stopwordsList)
    {
      runtime := rt;
      this.stemmer := stemmer;
      this.config := config;
      if stopwords == null {
        this.stopwords := new Stopwords();
      } else {
        this.stopwords := stopwords;
        stopwords.SetConfig(config);
      }
    }

    /** new Analyzer(tokenizer, stemmer, stopwords, config): rejects stemming without a
        stemmer before touching anything; otherwise a missing stopword filter becomes an empty
        one under the default configuration, and a given one takes the analyzer's
        configuration. */
    static method Create(rt: Runtime, stemmer: Option<Stemmer>, stopwords: Stopwords?, config: AnalyzerConfig) returns (r: Result<Analyzer, AnalyzerError>)
      modifies stopwords
      ensures r.Failure? <==> stemmer.None? && config.performStemming
      ensures r.Failure? ==> r.error == StemmerMissing && (stopwords != null ==> unchanged(stopwords))
      ensures r.Success? ==> fresh(r.value) && r.value.Valid()
      ensures r.Success? ==> r.value.runtime == rt && r.value.stemmer == stemmer && r.value.config == config
      ensures r.Success? && stopwords == null ==>
        fresh(r.value.stopwords) && r.value.stopwords.stopwordsList == [] && r.value.stopwords.config == DefaultConfig
      ensures r.Success? && stopwords != null ==>
        r.value.stopwords == stopwords && stopwords.config == config && stopwords.stopwordsList == old(stopwords.stopwordsList)
    {
      if stemmer.None? && config.performStemming {
        return Failure(StemmerMissing);
      }
      var a := new Analyzer.Init(rt, stemmer, stopwords, config);
      r := Success(a);
    }

    /** Preprocess: lower-case, remove accents, tokenize, stem, remove stopwords. */
    method Preprocess(doc: Document) returns (tokens: seq<string>)
      ensures tokens == Analyzed(RelevantText(doc), config, stemmer, stopwords.stopwordsList, runtime)
      ensures forall x :: x in tokens ==> x !in stopwords.stopwordsList
    {
      var text := RelevantText(doc);
      if config.lowercase {
        text := runtime.toLower(text);
      }
      if config.removeAccents {
        text := RemoveAccents(runtime.accents, text);
      }
      tokens := Tokenizer.Tokenize(text, runtime.split, runtime.isPunctuation);
      if config.performStemming && stemmer.Some? {
        tokens := stemmer.value(tokens);
      }
      tokens := stopwords.RemoveStopwords(tokens);
    }

    /** Tokenize: the tokenizer alone, with no case, accent or stopword processing. */
    method Tokenize(s: string) returns (tokens: seq<string>)
      ensures tokens == Tokenizer.Tokens(s, runtime.split, runtime.isPunctuation)
      ensures forall x :: x in tokens ==> x != [] && Trim(x) == x
    {
      tokens := Tokenizer.Tokenize(s, runtime.split, runtime.isPunctuation);
    }
  }

  /** No token the pipeline returns is a stopword. */
  lemma AnalyzedHasNoStopwords(text: string, config: AnalyzerConfig, stemmer: Option<Stemmer>, stopwords: seq<string>, rt: Runtime)
    ensures forall x :: x in Analyzed(text, config, stemmer, stopwords, rt) ==> x !in stopwords
  {
    var tokens := Tokenizer.Tokens(Prepared(text, config, rt), rt.split, rt.isPunctuation);
    forall x | x in Analyzed(text, config, stemmer, stopwords, rt)
      ensures x !in stopwords
    {
      WithoutMembers(Stemmed(tokens, config, stemmer), stopwords, x);
    }
  }

  /** With every switch off the pipeline is the stopword-filtered tokenization of the raw
      text, and every term is non-empty and trimmed. */
  lemma AnalyzedWithSwitchesOff(text: string, stemmer: Option<Stemmer>, stopwords: seq<string>, rt: Runtime)
    ensures Analyzed(text, AnalyzerConfig(false, false, false), stemmer, stopwords, rt)
      == Without(Tokenizer.Tokens(text, rt.split, rt.isPunctuation), stopwords)
    ensures forall x :: x in Analyzed(text, AnalyzerConfig(false, false, false), stemmer, stopwords, rt) ==>
      x != [] && Trim(x) == x && x !in stopwords
  {
    var tokens := Tokenizer.Tokens(text, rt.split, rt.isPunctuation);
    Tokenizer.FilteredTokensTrimmed(rt.split(Tokenizer.Collapse(Tokenizer.ReplaceNewlines(text))), rt.isPunctuation);
    forall x | x in Without(tokens, stopwords)
      ensures x != [] && Trim(x) == x && x !in stopwords
    {
      WithoutMembers(tokens, stopwords, x);
    }
  }

  /** The stemmer is consulted only when stemming is configured: otherwise any two stemmers,
      or none, give the same terms. */
  lemma StemmerUnusedWhenOff(text: string, config: AnalyzerConfig, s1: Option<Stemmer>, s2: Option<Stemmer>, stopwords: seq<string>, rt: Runtime)
    ensures !config.performStemming ==> Analyzed(text, config, s1, stopwords, rt) == Analyzed(text, config, s2, stopwords, rt)
    ensures config.performStemming && s1.Some? ==>
      Analyzed(text, config, s1, stopwords, rt) == Without(s1.value(Tokenizer.Tokens(Prepared(text, config, rt), rt.split, rt.isPunctuation)), stopwords)
  {
  }

  /** An analyzer built without a stopword filter removes nothing: its terms are the stemmed
      tokens. */
  lemma EmptyStopwordsRemoveNothing(text: string, config: AnalyzerConfig, stemmer: Option<Stemmer>, rt: Runtime)
    ensures Analyzed(text, config, stemmer, [], rt)
      == Stemmed(Tokenizer.Tokens(Prepared(text, config, rt), rt.split, rt.isPunctuation), config, stemmer)
  {
    var t := Stemmed(Tokenizer.Tokens(Prepared(text, config, rt), rt.split, rt.isPunctuation), config, stemmer);
    WithoutUnchangedIff(t, []);
  }

  /** Accent removal keeps the text's length, so without lower-casing the tokenizer sees a
      text as long as the document's. */
  lemma PreparedLength(text: string, config: AnalyzerConfig, rt: Runtime)
    requires !config.lowercase
    ensures |Prepared(text, config, rt)| == |text|
  {
  }
}
