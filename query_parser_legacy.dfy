/**
  The older revision of the boolean query parser. Its scanning loop, InfixToPostfix,
  PostfixToTree, Precedence, IsOperator and IsEndOfExpression are the same statements as in
  the src revision, so they are the members of BooleanQueryParser. What differs is the
  implicit-OR pass of Tokenize, which tests both neighbours inline instead of through
  IsNextTokenOperator; the methods here prove that both revisions tokenize and parse every
  query string identically.
*/
module BooleanQueryParserLegacy {
  import opened Wrappers
  import opened BooleanQueryParser

  /** The older Tokenize: the shared scanning loop, then the inline implicit-OR test. Its
      result is the src revision's token list on every input. */
  method Tokenize(queryString: string) returns (finalTokens: seq<string>)
    ensures finalTokens == Tokens(queryString)
  {
    var tokens := ScanRawTokens(queryString);
    finalTokens := [];
    var i := 0;
    while i < |tokens|
      invariant 0 <= i <= |tokens|
      invariant i < |tokens| ==> finalTokens + WithImplicitOr(tokens[i..]) == WithImplicitOr(tokens)
      invariant i == |tokens| ==> finalTokens == WithImplicitOr(tokens)
    {
      ghost var prev := finalTokens;
      finalTokens := finalTokens + [tokens[i]];
      if i == |tokens| - 1 {
        assert tokens[i..] == [tokens[i]];
        i := i + 1;
        break;
      }
      ImplicitOrStep(prev, tokens, i);
      if tokens[i + 1] != "AND" && tokens[i + 1] != "OR" && tokens[i + 1] != "NOT" && tokens[i + 1] != ")" && tokens[i + 1] != "(" &&
         tokens[i] != "AND" && tokens[i] != "OR" && tokens[i] != "NOT" && tokens[i] != ")" && tokens[i] != "("
      {
        finalTokens := finalTokens + ["OR"];
      }
      i := i + 1;
    }
  }

  /** The older ParseQuery: same result as the src revision, failure included. */
  method ParseQuery(queryString: string) returns (r: Result<ParserNode, ParseError>)
    ensures r == Parse(queryString)
  {
    var tokens := Tokenize(queryString);
    var postfix := InfixToPostfix(tokens);
    if postfix.Failure? {
      return Failure(postfix.error);
    }
    r := PostfixToTree(postfix.value);
  }
}
