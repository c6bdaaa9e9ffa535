/**
  Model/Preprocessing/Analyzer.cs: the older analyzer. Its constructor accepts any stemmer,
  including none, and Preprocess stems whenever stemming is configured; with no stemmer that
  call dereferences null, modelled as the NullStemmer failure. The document text is the older
  GetRelevantText.
*/
module AnalysisLegacy {
  import opened Wrappers
  import opened Config
  import opened Accents
  import opened StopwordList
  import opened Documents
  import opened Analysis
  import Tokenizer

  /** The older Preprocess applied to a text. */
  function LegacyAnalyzed(text: string, config: AnalyzerConfig, stemmer: Option<Stemmer>, stopwords: seq<string>, rt: Runtime): Result<seq<string>, AnalyzerError> {
    var tokens := Tokenizer.Tokens(Prepared(text, config, rt), rt.split, rt.isPunctuation);
    if config.performStemming && stemmer.None? then Failure(NullStemmer)
    else Success(Without(Stemmed(tokens, config, stemmer), stopwords))
  }

  class LegacyAnalyzer {
    const runtime: Runtime
    var stemmer: Option<Stemmer>
    var config: AnalyzerConfig
    var stopwords: Stopwords

    /** The constructor: no stemmer check; stopword handling as in the src revision. */
    constructor(rt: Runtime, stemmer: Option<Stemmer>, stopwords: Stopwords?, config: AnalyzerConfig)
      modifies stopwords
      ensures runtime == rt && this.stemmer == stemmer && this.config == config
      ensures stopwords == null ==> fresh(this.stopwords) && this.stopwords.stopwordsList == [] && this.stopwords.config == DefaultConfig
      ensures stopwords != null ==> this.stopwords == stopwords && stopwords.config == config && stopwords.stopwordsList == old(stopwords.stopwordsList)
    {
      runtime := rt;
      this.stemmer := stemmer;
      this.config := config;
      if stopwords == null {
        this.stopwords := new Stopwords();
      } else {
        this.stopwords := stopwords;
        stopwords.SetConfig(config);
      }
    }

    /** Preprocess: the same pipeline, except that the stemming step does not check for a
        stemmer. */
    method Preprocess(doc: Document) returns (r: Result<seq<string>, AnalyzerError>)
      ensures r == LegacyAnalyzed(LegacyRelevantText(doc), config, stemmer, stopwords.stopwordsList, runtime)
      ensures r.Failure? <==> config.performStemming && stemmer.None?
    {
      var text := LegacyRelevantText(doc);
      if config.lowercase {
        text := runtime.toLower(text);
      }
      if config.removeAccents {
        text := RemoveAccents(runtime.accents, text);
      }
      var tokens := Tokenizer.Tokenize(text, runtime.split, runtime.isPunctuation);
      if config.performStemming {
        if stemmer.None? {
          return Failure(NullStemmer);
        }
        tokens := stemmer.value(tokens);
      }
      tokens := stopwords.RemoveStopwords(tokens);
      r := Success(tokens);
    }
  }

  /** Wherever the older analyzer does not fail, it computes what the src analyzer computes,
      and it fails exactly on the configurations the src constructor rejects. */
  lemma LegacyAgreesWithSrc(text: string, config: AnalyzerConfig, stemmer: Option<Stemmer>, stopwords: seq<string>, rt: Runtime)
    ensures LegacyAnalyzed(text, config, stemmer, stopwords, rt).Failure? <==> stemmer.None? && config.performStemming
    ensures LegacyAnalyzed(text, config, stemmer, stopwords, rt).Success? ==>
      LegacyAnalyzed(text, config, stemmer, stopwords, rt).value == Analyzed(text, config, stemmer, stopwords, rt)
  {
  }

  /** With every switch off the older pipeline never fails and is the stopword-filtered
      tokenization of the raw text. */
  lemma LegacyWithSwitchesOff(text: string, stemmer: Option<Stemmer>, stopwords: seq<string>, rt: Runtime)
    ensures LegacyAnalyzed(text, AnalyzerConfig(false, false, false), stemmer, stopwords, rt)
      == Success(Without(Tokenizer.Tokens(text, rt.split, rt.isPunctuation), stopwords))
  {
    AnalyzedWithSwitchesOff(text, stemmer, stopwords, rt);
  }
}
