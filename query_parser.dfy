/**
  The boolean query parser (src revision): a character scanner that recognises the
  operator words AND, OR, NOT and parentheses, an implicit-OR pass, a shunting-yard
  conversion to postfix and a stack reduction to a binary expression tree.

  Each imperative method of the source is a method here, proved equal to a
  specification function that walks the input the same way; what the parser promises
  is proved as lemmas about those functions.
*/
module BooleanQueryParser {
  import opened Wrappers

  /** The exception every failing parse raises: Stack.Pop on an empty stack. */
  datatype ParseError = EmptyStack

  datatype NodeType = AND | OR | NOT | TERM

  /** A parser node. NOT keeps its single operand in the left slot, so it is a node of its own shape. */
  datatype ParserNode =
    | Leaf(text: string)
    | Unary(text: string, child: ParserNode)
    | Binary(text: string, left: ParserNode, right: ParserNode)
  {
    /** The node type the ParserNode constructor derives from the node text. */
    function Type(): NodeType {
      TypeOf(text)
    }
  }

  function TypeOf(text: string): NodeType {
    if text == "OR" then OR
    else if text == "AND" then AND
    else if text == "NOT" then NOT
    else TERM
  }

  predicate IsOperator(token: string) {
    token == "AND" || token == "OR" || token == "NOT" || token == "(" || token == ")"
  }

  function Precedence(op: string): int {
    if op == "NOT" then 2
    else if op == "AND" then 1
    else if op == "OR" then 0
    else -1
  }

  /** The next character closes a word: end of string, a parenthesis or a space. */
  predicate IsEndOfExpression(s: string, i: nat)
    requires i < |s|
  {
    i == |s| - 1 || s[i + 1] == ')' || s[i + 1] == '(' || s[i + 1] == ' '
  }

  /** The src revision's helper: is tokens[i + 1] an operator or a parenthesis? */
  predicate IsNextTokenOperator(tokens: seq<string>, i: int)
    requires -1 <= i && i + 1 < |tokens|
  {
    !(tokens[i + 1] != "AND" && tokens[i + 1] != "OR" && tokens[i + 1] != "NOT" && tokens[i + 1] != ")" && tokens[i + 1] != "(")
  }

  // ---------------------------------------------------------------------------
  // Scanning

  /** The word w stands at position i and is followed by the end of the string, a space or a parenthesis. */
  predicate WordAt(s: string, i: nat, w: string) {
    i + |w| <= |s| && s[i..i + |w|] == w && (i + |w| == |s| || s[i + |w|] in {' ', '(', ')'})
  }

  /** The operator word the scanner takes at position i when its buffer is empty: one of the
      three operator words, standing on its own; otherwise none, and the letters go to a literal. */
  function OperatorAt(s: string, i: nat): (op: Option<string>)
    requires i < |s|
    ensures op.Some? ==> op.value in {"AND", "OR", "NOT"} && WordAt(s, i, op.value)
    ensures op.None? <==> !WordAt(s, i, "AND") && !WordAt(s, i, "OR") && !WordAt(s, i, "NOT")
  {
    OperatorLetters(s, i);
    if s[i] == 'A' && i + 2 < |s| && s[i + 1] == 'N' && s[i + 2] == 'D' && IsEndOfExpression(s, i + 2) then Some("AND")
    else if s[i] == 'O' && i + 1 < |s| && s[i + 1] == 'R' && IsEndOfExpression(s, i + 1) then Some("OR")
    else if s[i] == 'N' && i + 2 < |s| && s[i + 1] == 'O' && s[i + 2] == 'T' && IsEndOfExpression(s, i + 2) then Some("NOT")
    else None
  }

  /** The character tests of the scanner's operator cases, read as whole words. */
  lemma OperatorLetters(s: string, i: nat)
    requires i < |s|
    ensures WordAt(s, i, "AND") <==> s[i] == 'A' && i + 2 < |s| && s[i + 1] == 'N' && s[i + 2] == 'D' && IsEndOfExpression(s, i + 2)
    ensures WordAt(s, i, "OR") <==> s[i] == 'O' && i + 1 < |s| && s[i + 1] == 'R' && IsEndOfExpression(s, i + 1)
    ensures WordAt(s, i, "NOT") <==> s[i] == 'N' && i + 2 < |s| && s[i + 1] == 'O' && s[i + 2] == 'T' && IsEndOfExpression(s, i + 2)
  {
    if i + 2 < |s| {
      assert s[i..i + 3] == [s[i], s[i + 1], s[i + 2]];
    }
    if i + 1 < |s| {
      assert s[i..i + 2] == [s[i], s[i + 1]];
    }
  }

  function Flush(tokens: seq<string>, buffer: string): seq<string> {
    if |buffer| > 0 then tokens + [buffer] else tokens
  }

  /** The raw tokens the scanning loop of Tokenize produces from position i on,
      given its buffer and the tokens emitted so far. */
  function ScanFrom(s: string, i: nat, buffer: string, tokens: seq<string>): seq<string>
    requires i <= |s|
    decreases |s| - i
  {
    if i == |s| then Flush(tokens, buffer)
    else if s[i] == ' ' then ScanFrom(s, i + 1, "", Flush(tokens, buffer))
    else if s[i] == '(' || s[i] == ')' then
      if |buffer| > 0 then ScanFrom(s, i + 1, [s[i]], tokens + [buffer])
      else ScanFrom(s, i + 1, "", tokens + [[s[i]]])
    else if |buffer| == 0 && OperatorAt(s, i).Some? then
      var op := OperatorAt(s, i).value;
      ScanFrom(s, i + |op|, "", tokens + [op])
    else ScanFrom(s, i + 1, buffer + [s[i]], tokens)
  }

  function Scan(s: string): seq<string> {
    ScanFrom(s, 0, "", [])
  }

  /** The default-operator pass: an OR between two adjacent tokens neither of which is an operator. */
  function WithImplicitOr(tokens: seq<string>): seq<string> {
    if |tokens| <= 1 then tokens
    else [tokens[0]] + (if !IsOperator(tokens[0]) && !IsOperator(tokens[1]) then ["OR"] else []) + WithImplicitOr(tokens[1..])
  }

  function Tokens(s: string): seq<string> {
    WithImplicitOr(Scan(s))
  }

  /** The scanning loop shared character for character by both revisions of Tokenize. */
  method ScanRawTokens(queryString: string) returns (tokens: seq<string>)
    ensures tokens == Scan(queryString)
  {
    tokens := [];
    var sb: string := "";
    var i := 0;
    while i < |queryString|
      invariant 0 <= i <= |queryString|
      invariant ScanFrom(queryString, i, sb, tokens) == Scan(queryString)
    {
      var c := queryString[i];
      if c == ' ' {
        if |sb| > 0 {
          tokens := tokens + [sb];
          sb := "";
        }
      } else if c == '(' || c == ')' {
        if |sb| > 0 {
          tokens := tokens + [sb];
          sb := [c];
        } else {
          tokens := tokens + [[c]];
        }
      } else if c == 'A' {
        if |sb| > 0 {
          sb := sb + [c];
        } else if i + 2 < |queryString| {
          if queryString[i + 1] == 'N' && queryString[i + 2] == 'D' && IsEndOfExpression(queryString, i + 2) {
            tokens := tokens + ["AND"];
            i := i + 2;
          } else {
            sb := sb + [c];
          }
        } else {
          sb := sb + [c];
        }
      } else if c == 'O' {
        if |sb| > 0 {
          sb := sb + [c];
        } else if i + 1 < |queryString| {
          if queryString[i + 1] == 'R' && IsEndOfExpression(queryString, i + 1) {
            tokens := tokens + ["OR"];
            i := i + 1;
          } else {
            sb := sb + [c];
          }
        } else {
          sb := sb + [c];
        }
      } else if c == 'N' {
        if |sb| > 0 {
          sb := sb + [c];
        } else if i + 2 < |queryString| {
          if queryString[i + 1] == 'O' && queryString[i + 2] == 'T' && IsEndOfExpression(queryString, i + 2) {
            tokens := tokens + ["NOT"];
            i := i + 2;
          } else {
            sb := sb + [c];
          }
        } else {
          sb := sb + [c];
        }
      } else {
        sb := sb + [c];
      }
      i := i + 1;
    }
    if |sb| > 0 {
      tokens := tokens + [sb];
    }
  }

  /** Tokenize: scan, then add the default OR operators. */
  method Tokenize(queryString: string) returns (finalTokens: seq<string>)
    ensures finalTokens == Tokens(queryString)
  {
    var tokens := ScanRawTokens(queryString);
    finalTokens := [];
    var i := 0;
    while i < |tokens|
      invariant 0 <= i <= |tokens|
      invariant i < |tokens| ==> finalTokens + WithImplicitOr(tokens[i..]) == WithImplicitOr(tokens)
      invariant i == |tokens| ==> finalTokens == WithImplicitOr(tokens)
    {
      ghost var prev := finalTokens;
      finalTokens := finalTokens + [tokens[i]];
      if i == |tokens| - 1 {
        assert tokens[i..] == [tokens[i]];
        i := i + 1;
        break;
      }
      ImplicitOrStep(prev, tokens, i);
      assert IsNextTokenOperator(tokens, i) == IsOperator(tokens[i + 1]);
      assert IsNextTokenOperator(tokens, i - 1) == IsOperator(tokens[i]);
      if !IsNextTokenOperator(tokens, i) && !IsNextTokenOperator(tokens, i - 1) {
        finalTokens := finalTokens + ["OR"];
      }
      i := i + 1;
    }
  }

  /** One step of the implicit-OR pass: token i is copied, followed by an OR when neither it
      nor its successor is an operator. */
  lemma ImplicitOrStep(prefix: seq<string>, tokens: seq<string>, i: nat)
    requires i + 1 < |tokens|
    ensures !IsOperator(tokens[i]) && !IsOperator(tokens[i + 1]) ==>
      prefix + WithImplicitOr(tokens[i..]) == (prefix + [tokens[i]] + ["OR"]) + WithImplicitOr(tokens[i + 1..])
    ensures IsOperator(tokens[i]) || IsOperator(tokens[i + 1]) ==>
      prefix + WithImplicitOr(tokens[i..]) == (prefix + [tokens[i]]) + WithImplicitOr(tokens[i + 1..])
  {
    var extra := if !IsOperator(tokens[i]) && !IsOperator(tokens[i + 1]) then ["OR"] else [];
    assert tokens[i..][1..] == tokens[i + 1..];
    var rest := WithImplicitOr(tokens[i + 1..]);
    assert WithImplicitOr(tokens[i..]) == [tokens[i]] + extra + rest;
    SeqAssoc(prefix, [tokens[i]] + extra, rest);
    SeqAssoc(prefix, [tokens[i]], extra);
    assert [tokens[i]] + [] == [tokens[i]];
  }

  // ---------------------------------------------------------------------------
  // Infix to postfix

  /** Pops operators to the output until a "(" is on top (or the stack is empty). Stacks keep their top last. */
  function PopUntilOpen(stack: seq<string>, output: seq<string>): (r: (seq<string>, seq<string>))
    ensures r.0 == [] || r.0[|r.0| - 1] == "("
    decreases |stack|
  {
    if |stack| > 0 && stack[|stack| - 1] != "(" then PopUntilOpen(stack[..|stack| - 1], output + [stack[|stack| - 1]])
    else (stack, output)
  }

  /** Pops operators to the output while the incoming operator does not bind tighter than the top. */
  function PopWhileNotWeaker(token: string, stack: seq<string>, output: seq<string>): (seq<string>, seq<string>)
    decreases |stack|
  {
    if |stack| > 0 && Precedence(token) <= Precedence(stack[|stack| - 1]) then
      PopWhileNotWeaker(token, stack[..|stack| - 1], output + [stack[|stack| - 1]])
    else (stack, output)
  }

  function Reversed(s: seq<string>): seq<string> {
    if s == [] then [] else [s[|s| - 1]] + Reversed(s[..|s| - 1])
  }

  /** One iteration of InfixToPostfix's loop: the new stack and output after one infix token,
      or the failing Pop when a ")" finds no "(" on the stack. */
  function PostfixStep(token: string, stack: seq<string>, output: seq<string>): Result<(seq<string>, seq<string>), ParseError> {
    if !IsOperator(token) then Success((stack, output + [token]))
    else if token == "(" then Success((stack + [token], output))
    else if token == ")" then
      var (stack', output') := PopUntilOpen(stack, output);
      if stack' == [] then Failure(EmptyStack) else Success((stack'[..|stack'| - 1], output'))
    else
      var (stack', output') := PopWhileNotWeaker(token, stack, output);
      Success((stack' + [token], output'))
  }

  /** What InfixToPostfix produces from the remaining infix tokens, given its stack and output. */
  function PostfixFrom(infix: seq<string>, stack: seq<string>, output: seq<string>): Result<seq<string>, ParseError>
    decreases |infix|
  {
    if infix == [] then Success(output + Reversed(stack))
    else
      match PostfixStep(infix[0], stack, output)
      case Failure(e) => Failure(e)
      case Success(next) => PostfixFrom(infix[1..], next.0, next.1)
  }

  function Postfix(infix: seq<string>): Result<seq<string>, ParseError> {
    PostfixFrom(infix, [], [])
  }

  method InfixToPostfix(infix: seq<string>) returns (r: Result<seq<string>, ParseError>)
    ensures r == Postfix(infix)
  {
    var result: seq<string> := [];
    var stack: seq<string> := [];
    var i := 0;
    while i < |infix|
      invariant 0 <= i <= |infix|
      invariant PostfixFrom(infix[i..], stack, result) == Postfix(infix)
    {
      assert infix[i..][1..] == infix[i + 1..];
      var token := infix[i];
      if !IsOperator(token) {
        result := result + [token];
      } else if token == "(" {
        stack := stack + [token];
      } else if token == ")" {
        ghost var popped := PopUntilOpen(stack, result);
        while |stack| > 0 && stack[|stack| - 1] != "("
          invariant PopUntilOpen(stack, result) == popped
          decreases |stack|
        {
          result := result + [stack[|stack| - 1]];
          stack := stack[..|stack| - 1];
        }
        if |stack| > 0 && stack[|stack| - 1] != "(" {
          // the "Malformed query" check: the loop above has just made it false
          assert false;
        }
        if |stack| == 0 {
          return Failure(EmptyStack);
        }
        stack := stack[..|stack| - 1];
      } else {
        ghost var popped := PopWhileNotWeaker(token, stack, result);
        while |stack| > 0 && Precedence(token) <= Precedence(stack[|stack| - 1])
          invariant PopWhileNotWeaker(token, stack, result) == popped
          decreases |stack|
        {
          result := result + [stack[|stack| - 1]];
          stack := stack[..|stack| - 1];
        }
        stack := stack + [token];
      }
      i := i + 1;
    }
    assert infix[i..] == [];
    while |stack| > 0
      invariant Postfix(infix).Success?
      invariant result + Reversed(stack) == Postfix(infix).value
      decreases |stack|
    {
      assert Reversed(stack) == [stack[|stack| - 1]] + Reversed(stack[..|stack| - 1]);
      result := result + [stack[|stack| - 1]];
      stack := stack[..|stack| - 1];
    }
    assert result + Reversed(stack) == result;
    return Success(result);
  }

  // ---------------------------------------------------------------------------
  // Postfix to tree

  /** What PostfixToTree produces from the remaining postfix tokens, given its node stack (top last). */
  function TreeFrom(postfix: seq<string>, stack: seq<ParserNode>): Result<ParserNode, ParseError>
    decreases |postfix|
  {
    if postfix == [] then
      if stack == [] then Failure(EmptyStack) else Success(stack[|stack| - 1])
    else
      var token := postfix[0];
      if !IsOperator(token) then TreeFrom(postfix[1..], stack + [Leaf(token)])
      else if TypeOf(token) == NOT then
        if stack == [] then Failure(EmptyStack)
        else TreeFrom(postfix[1..], stack[..|stack| - 1] + [Unary(token, stack[|stack| - 1])])
      else if |stack| < 2 then Failure(EmptyStack)
      else TreeFrom(postfix[1..], stack[..|stack| - 2] + [Binary(token, stack[|stack| - 2], stack[|stack| - 1])])
  }

  function Tree(postfix: seq<string>): Result<ParserNode, ParseError> {
    TreeFrom(postfix, [])
  }

  method PostfixToTree(postfix: seq<string>) returns (r: Result<ParserNode, ParseError>)
    ensures r == Tree(postfix)
  {
    var stack: seq<ParserNode> := [];
    var i := 0;
    while i < |postfix|
      invariant 0 <= i <= |postfix|
      invariant TreeFrom(postfix[i..], stack) == Tree(postfix)
    {
      assert postfix[i..][1..] == postfix[i + 1..];
      if !IsOperator(postfix[i]) {
        stack := stack + [Leaf(postfix[i])];
      } else {
        if TypeOf(postfix[i]) == NOT {
          if |stack| == 0 {
            return Failure(EmptyStack);
          }
          var left := stack[|stack| - 1];
          stack := stack[..|stack| - 1];
          stack := stack + [Unary(postfix[i], left)];
        } else {
          ghost var before := stack;
          if |stack| == 0 {
            return Failure(EmptyStack);
          }
          var right := stack[|stack| - 1];
          stack := stack[..|stack| - 1];
          if |stack| == 0 {
            return Failure(EmptyStack);
          }
          var left := stack[|stack| - 1];
          stack := stack[..|stack| - 1];
          assert stack == before[..|before| - 2];
          stack := stack + [Binary(postfix[i], left, right)];
        }
      }
      i := i + 1;
    }
    if |stack| == 0 {
      return Failure(EmptyStack);
    }
    return Success(stack[|stack| - 1]);
  }

  // ---------------------------------------------------------------------------
  // The whole parse

  function Parse(queryString: string): Result<ParserNode, ParseError> {
    var postfix :- Postfix(Tokens(queryString));
    Tree(postfix)
  }

  method ParseQuery(queryString: string) returns (r: Result<ParserNode, ParseError>)
    ensures r == Parse(queryString)
  {
    var tokens := Tokenize(queryString);
    var postfix := InfixToPostfix(tokens);
    if postfix.Failure? {
      return Failure(postfix.error);
    }
    r := PostfixToTree(postfix.value);
  }

  // ---------------------------------------------------------------------------
  // Properties of the scanner

  predicate WellFormedToken(token: string) {
    |token| > 0 && ' ' !in token
  }

  lemma {:induction false} ScanFromWellFormed(s: string, i: nat, buffer: string, tokens: seq<string>)
    requires i <= |s|
    requires ' ' !in buffer
    requires forall k :: 0 <= k < |tokens| ==> WellFormedToken(tokens[k])
    ensures forall k :: 0 <= k < |ScanFrom(s, i, buffer, tokens)| ==> WellFormedToken(ScanFrom(s, i, buffer, tokens)[k])
    decreases |s| - i
  {
    if i == |s| {
    } else if s[i] == ' ' {
      ScanFromWellFormed(s, i + 1, "", Flush(tokens, buffer));
    } else if s[i] == '(' || s[i] == ')' {
      if |buffer| > 0 {
        ScanFromWellFormed(s, i + 1, [s[i]], tokens + [buffer]);
      } else {
        ScanFromWellFormed(s, i + 1, "", tokens + [[s[i]]]);
      }
    } else if |buffer| == 0 && OperatorAt(s, i).Some? {
      var op := OperatorAt(s, i).value;
      ScanFromWellFormed(s, i + |op|, "", tokens + [op]);
    } else {
      ScanFromWellFormed(s, i + 1, buffer + [s[i]], tokens);
    }
  }

  /** Every element of the implicit-OR output is an input token or the inserted "OR". */
  lemma {:induction false} WithImplicitOrElements(tokens: seq<string>)
    ensures forall x :: x in WithImplicitOr(tokens) ==> x in tokens || x == "OR"
  {
    if |tokens| > 1 {
      WithImplicitOrElements(tokens[1..]);
    }
  }

  /** The token list never holds an empty token or a token containing a space. */
  lemma TokensWellFormed(queryString: string)
    ensures forall k :: 0 <= k < |Tokens(queryString)| ==> WellFormedToken(Tokens(queryString)[k])
  {
    ScanFromWellFormed(queryString, 0, "", []);
    var raw := Scan(queryString);
    WithImplicitOrElements(raw);
    forall k | 0 <= k < |Tokens(queryString)|
      ensures WellFormedToken(Tokens(queryString)[k])
    {
      var x := Tokens(queryString)[k];
      assert x in WithImplicitOr(raw);
      if x != "OR" {
        var m :| 0 <= m < |raw| && raw[m] == x;
      }
    }
  }

  /** A word the scanner keeps whole: no space and no parenthesis in it. */
  predicate PlainWord(w: string) {
    |w| > 0 && ' ' !in w && '(' !in w && ')' !in w
  }

  function JoinBySpace(words: seq<string>): string {
    if |words| == 0 then ""
    else if |words| == 1 then words[0]
    else words[0] + " " + JoinBySpace(words[1..])
  }

  /** With a non-empty buffer, characters other than a space or a parenthesis are only appended. */
  lemma {:induction false} ScanAccumulates(s: string, i: nat, j: nat, buffer: string, tokens: seq<string>)
    requires i <= j <= |s| && |buffer| > 0
    requires forall k :: i <= k < j ==> s[k] != ' ' && s[k] != '(' && s[k] != ')'
    ensures ScanFrom(s, i, buffer, tokens) == ScanFrom(s, j, buffer + s[i..j], tokens)
    decreases j - i
  {
    if i == j {
      assert buffer + s[i..j] == buffer;
    } else {
      ScanAccumulates(s, i + 1, j, buffer + [s[i]], tokens);
      assert buffer + [s[i]] + s[i + 1..j] == buffer + s[i..j];
    }
  }

  /** A plain word followed by a space or the end of the string becomes exactly one token,
      whether it is an operator word or not. */
  lemma ScanWord(s: string, i: nat, w: string, tokens: seq<string>)
    requires PlainWord(w) && i + |w| <= |s| && s[i..i + |w|] == w
    requires i + |w| == |s| || s[i + |w|] == ' '
    ensures i + |w| == |s| ==> ScanFrom(s, i, "", tokens) == tokens + [w]
    ensures i + |w| < |s| ==> ScanFrom(s, i, "", tokens) == ScanFrom(s, i + |w| + 1, "", tokens + [w])
  {
    if OperatorAt(s, i).Some? {
      ScanOperatorWord(s, i, w, tokens);
    } else {
      ScanLiteralWord(s, i, w, tokens);
    }
    ScanAfterWord(s, i + |w|, w, tokens);
  }

  /** A word the scanner recognises as an operator is emitted as a whole. */
  lemma ScanOperatorWord(s: string, i: nat, w: string, tokens: seq<string>)
    requires PlainWord(w) && i + |w| <= |s| && s[i..i + |w|] == w
    requires i + |w| == |s| || s[i + |w|] == ' '
    requires OperatorAt(s, i).Some?
    ensures ScanFrom(s, i, "", tokens) == ScanFrom(s, i + |w|, "", tokens + [w])
  {
    var op := OperatorAt(s, i).value;
    var j := i + |w|;
    forall k | i <= k < j
      ensures s[k] != ' ' && s[k] != '(' && s[k] != ')'
    {
      assert s[k] == w[k - i] && w[k - i] in w;
    }
    assert forall k :: 0 <= k < |op| ==> op[k] != ' ';
    assert forall k :: i <= k < i + |op| ==> s[k] == op[k - i];
    assert |op| == |w|;
  }

  /** Any other word is accumulated in the buffer up to its end. */
  lemma ScanLiteralWord(s: string, i: nat, w: string, tokens: seq<string>)
    requires PlainWord(w) && i + |w| <= |s| && s[i..i + |w|] == w
    requires OperatorAt(s, i).None?
    ensures ScanFrom(s, i, "", tokens) == ScanFrom(s, i + |w|, w, tokens)
  {
    assert s[i] == w[0] && w[0] in w;
    var j := i + |w|;
    forall k | i + 1 <= k < j
      ensures s[k] != ' ' && s[k] != '(' && s[k] != ')'
    {
      assert s[k] == w[k - i] && w[k - i] in w;
    }
    var empty: string := "";
    assert empty + [s[i]] == [s[i]];
    ScanAccumulates(s, i + 1, j, [s[i]], tokens);
    assert [s[i]] + s[i + 1..j] == w;
  }

  /** After a word, the end of the string or a space emits the buffered word. */
  lemma ScanAfterWord(s: string, j: nat, w: string, tokens: seq<string>)
    requires j <= |s| && |w| > 0
    requires j == |s| || s[j] == ' '
    ensures j == |s| ==> (ScanFrom(s, j, "", tokens + [w]) == tokens + [w] && ScanFrom(s, j, w, tokens) == tokens + [w])
    ensures j < |s| ==> (ScanFrom(s, j, "", tokens + [w]) == ScanFrom(s, j + 1, "", tokens + [w]) &&
                         ScanFrom(s, j, w, tokens) == ScanFrom(s, j + 1, "", tokens + [w]))
  {
  }

  lemma {:induction false} ScanWordsFrom(s: string, i: nat, words: seq<string>, tokens: seq<string>)
    requires i <= |s| && s[i..] == JoinBySpace(words)
    requires forall k :: 0 <= k < |words| ==> PlainWord(words[k])
    ensures ScanFrom(s, i, "", tokens) == tokens + words
    decreases |words|
  {
    if |words| <= 1 {
      ScanFewWords(s, i, words, tokens);
    } else {
      var w := words[0];
      var j := i + |w| + 1;
      assert j <= |s| && s[j..] == JoinBySpace(words[1..]) &&
        ScanFrom(s, i, "", tokens) == ScanFrom(s, j, "", tokens + [w]) by {
        ScanNextWord(s, i, words, tokens);
      }
      assert ScanFrom(s, j, "", tokens + [w]) == tokens + [w] + words[1..] by {
        ScanWordsFrom(s, j, words[1..], tokens + [w]);
      }
      AppendFront(tokens, words);
    }
  }

  /** No words scan to no tokens; a single word to one token. */
  lemma ScanFewWords(s: string, i: nat, words: seq<string>, tokens: seq<string>)
    requires i <= |s| && s[i..] == JoinBySpace(words) && |words| <= 1
    requires forall k :: 0 <= k < |words| ==> PlainWord(words[k])
    ensures ScanFrom(s, i, "", tokens) == tokens + words
  {
    if |words| == 0 {
      assert i == |s|;
      assert tokens + words == tokens;
    } else {
      ScanLastWord(s, i, words[0], tokens);
      assert words == [words[0]];
    }
  }

  /** The last word of the query is its last token. */
  lemma ScanLastWord(s: string, i: nat, w: string, tokens: seq<string>)
    requires i <= |s| && s[i..] == w && PlainWord(w)
    ensures ScanFrom(s, i, "", tokens) == tokens + [w]
  {
    assert i + |w| == |s| && s[i..i + |w|] == w;
    ScanWord(s, i, w, tokens);
  }

  /** A word followed by a space is one token; scanning goes on after the space. */
  lemma ScanNextWord(s: string, i: nat, words: seq<string>, tokens: seq<string>)
    requires i <= |s| && |words| >= 2 && s[i..] == JoinBySpace(words) && PlainWord(words[0])
    ensures i + |words[0]| + 1 <= |s|
    ensures ScanFrom(s, i, "", tokens) == ScanFrom(s, i + |words[0]| + 1, "", tokens + [words[0]])
    ensures s[i + |words[0]| + 1..] == JoinBySpace(words[1..])
  {
    var w := words[0];
    var rest := JoinBySpace(words[1..]);
    assert s[i..] == w + " " + rest;
    assert s[i..i + |w|] == w;
    assert s[i + |w|] == ' ';
    ScanWord(s, i, w, tokens);
  }

  /** Words separated by single spaces scan back to the same words: an operator word is its
      own token only as a whole word, and "ANDY" or "fishAND" stay literals. */
  lemma ScanJoinedWords(words: seq<string>)
    requires forall k :: 0 <= k < |words| ==> PlainWord(words[k])
    ensures Scan(JoinBySpace(words)) == words
  {
    var s := JoinBySpace(words);
    assert s[0..] == s;
    ScanWordsFrom(s, 0, words, []);
  }

  // ---------------------------------------------------------------------------
  // Properties of the implicit-OR pass

  /** No two adjacent literals: at least one of every pair of neighbours is an operator or a parenthesis. */
  predicate NoAdjacentLiterals(tokens: seq<string>) {
    forall k :: 0 <= k < |tokens| - 1 ==> IsOperator(tokens[k]) || IsOperator(tokens[k + 1])
  }

  function Literals(tokens: seq<string>): seq<string> {
    if tokens == [] then []
    else (if IsOperator(tokens[0]) then [] else [tokens[0]]) + Literals(tokens[1..])
  }

  lemma {:induction false} LiteralsAppend(a: seq<string>, b: seq<string>)
    ensures Literals(a + b) == Literals(a) + Literals(b)
    decreases |a|
  {
    if a == [] {
      assert a + b == b;
    } else {
      assert (a + b)[1..] == a[1..] + b;
      LiteralsAppend(a[1..], b);
    }
  }

  lemma LiteralsCons(tokens: seq<string>)
    requires tokens != []
    ensures Literals(tokens) == Literals([tokens[0]]) + Literals(tokens[1..])
  {
    var head: seq<string> := if IsOperator(tokens[0]) then [] else [tokens[0]];
    assert Literals([tokens[0]]) == head by {
      assert [tokens[0]][1..] == [];
      assert head + [] == head;
    }
  }

  lemma {:induction false} WithImplicitOrShape(tokens: seq<string>)
    ensures |tokens| > 0 ==> |WithImplicitOr(tokens)| > 0 && WithImplicitOr(tokens)[0] == tokens[0]
    ensures NoAdjacentLiterals(WithImplicitOr(tokens))
    ensures Literals(WithImplicitOr(tokens)) == Literals(tokens)
  {
    if |tokens| > 1 {
      var rest := WithImplicitOr(tokens[1..]);
      WithImplicitOrShape(tokens[1..]);
      var mid: seq<string> := if !IsOperator(tokens[0]) && !IsOperator(tokens[1]) then ["OR"] else [];
      var r := [tokens[0]] + mid + rest;
      assert WithImplicitOr(tokens) == r;
      forall k | 0 <= k < |r| - 1
        ensures IsOperator(r[k]) || IsOperator(r[k + 1])
      {
        if k >= |mid| + 1 {
          assert r[k] == rest[k - |mid| - 1] && r[k + 1] == rest[k - |mid|];
        }
      }
      LiteralsAppend([tokens[0]] + mid, rest);
      LiteralsAppend([tokens[0]], mid);
      assert Literals(mid) == [];
      assert tokens == [tokens[0]] + tokens[1..];
      LiteralsAppend([tokens[0]], tokens[1..]);
    }
  }

  /** The pass changes a token list exactly when the list has two adjacent literals. */
  lemma {:induction false} WithImplicitOrFixedIff(tokens: seq<string>)
    ensures WithImplicitOr(tokens) == tokens <==> NoAdjacentLiterals(tokens)
  {
    WithImplicitOrShape(tokens);
    if |tokens| > 1 {
      WithImplicitOrFixedIff(tokens[1..]);
      if NoAdjacentLiterals(tokens) {
        assert NoAdjacentLiterals(tokens[1..]) by {
          forall k | 0 <= k < |tokens[1..]| - 1
            ensures IsOperator(tokens[1..][k]) || IsOperator(tokens[1..][k + 1])
          {
            assert tokens[1..][k] == tokens[k + 1];
          }
        }
        assert !(!IsOperator(tokens[0]) && !IsOperator(tokens[1]));
        assert WithImplicitOr(tokens) == [tokens[0]] + tokens[1..];
      }
    }
  }

  /** Adding the default operators twice adds nothing the first pass did not. */
  lemma WithImplicitOrIdempotent(tokens: seq<string>)
    ensures WithImplicitOr(WithImplicitOr(tokens)) == WithImplicitOr(tokens)
  {
    WithImplicitOrShape(tokens);
    WithImplicitOrFixedIff(WithImplicitOr(tokens));
  }

  // ---------------------------------------------------------------------------
  // Properties of the conversion to postfix

  /** The tokens InfixToPostfix ever pushes on its operator stack. */
  predicate StackToken(token: string) {
    token == "(" || token == "AND" || token == "OR" || token == "NOT"
  }

  predicate AllStackTokens(stack: seq<string>) {
    forall k :: 0 <= k < |stack| ==> StackToken(stack[k])
  }

  /** How a token changes the parenthesis depth. */
  function Delta(token: string): int {
    if token == "(" then 1 else if token == ")" then -1 else 0
  }

  /** Opening minus closing parentheses in a token list. */
  function Depth(tokens: seq<string>): int {
    var opens: int := multiset(tokens)["("];
    opens - multiset(tokens)[")"]
  }

  /** Every ")" has an earlier "(" left to close: no prefix has negative depth. */
  predicate ClosersMatched(infix: seq<string>) {
    forall k :: 0 <= k <= |infix| ==> Depth(infix[..k]) >= 0
  }

  /** Starting at depth d, the running depth never drops below zero. */
  predicate NeverBelowZero(d: int, infix: seq<string>)
    decreases |infix|
  {
    infix == [] || (d + Delta(infix[0]) >= 0 && NeverBelowZero(d + Delta(infix[0]), infix[1..]))
  }

  lemma {:induction false} NeverBelowZeroIff(d: int, infix: seq<string>)
    ensures NeverBelowZero(d, infix) <==> forall k :: 0 < k <= |infix| ==> d + Depth(infix[..k]) >= 0
    decreases |infix|
  {
    if infix != [] {
      var d' := d + Delta(infix[0]);
      NeverBelowZeroIff(d', infix[1..]);
      assert infix[..1] == [infix[0]];
      forall k | 1 <= k <= |infix|
        ensures d + Depth(infix[..k]) == d' + Depth(infix[1..][..k - 1])
      {
        assert infix[..k] == [infix[0]] + infix[1..][..k - 1];
      }
      if forall k :: 0 < k <= |infix| ==> d + Depth(infix[..k]) >= 0 {
        assert d + Depth(infix[..1]) >= 0;
        forall k | 0 < k <= |infix[1..]|
          ensures d' + Depth(infix[1..][..k]) >= 0
        {
          assert d + Depth(infix[..k + 1]) >= 0;
        }
      }
      if NeverBelowZero(d, infix) {
        forall k | 0 < k <= |infix|
          ensures d + Depth(infix[..k]) >= 0
        {
          if k > 1 {
            assert d' + Depth(infix[1..][..k - 1]) >= 0;
          }
        }
      }
    }
  }

  lemma {:induction false} ReversedFacts(s: seq<string>)
    requires AllStackTokens(s)
    ensures multiset(Reversed(s)) == multiset(s)
    ensures Literals(Reversed(s)) == []
    decreases |s|
  {
    if s != [] {
      var init := s[..|s| - 1];
      ReversedFacts(init);
      assert s == init + [s[|s| - 1]];
      LiteralsAppend([s[|s| - 1]], Reversed(init));
    }
  }

  lemma {:induction false} PopUntilOpenFacts(stack: seq<string>, output: seq<string>)
    requires AllStackTokens(stack)
    ensures var r := PopUntilOpen(stack, output);
      && AllStackTokens(r.0)
      && multiset(r.0)["("] == multiset(stack)["("]
      && (r.0 == [] <==> multiset(stack)["("] == 0)
      && Literals(r.1) == Literals(output)
      && multiset(r.1)["("] == multiset(output)["("]
      && multiset(r.1)[")"] == multiset(output)[")"]
    decreases |stack|
  {
    if |stack| > 0 && stack[|stack| - 1] != "(" {
      var top := stack[|stack| - 1];
      assert stack == stack[..|stack| - 1] + [top];
      LiteralsAppend(output, [top]);
      PopUntilOpenFacts(stack[..|stack| - 1], output + [top]);
    } else if |stack| > 0 {
      assert stack[|stack| - 1] in multiset(stack);
    }
  }

  lemma {:induction false} PopWhileNotWeakerFacts(token: string, stack: seq<string>, output: seq<string>)
    requires AllStackTokens(stack) && Precedence(token) >= 0
    ensures var r := PopWhileNotWeaker(token, stack, output);
      && AllStackTokens(r.0)
      && multiset(r.0)["("] == multiset(stack)["("]
      && Literals(r.1) == Literals(output)
      && multiset(r.1)["("] == multiset(output)["("]
      && multiset(r.1)[")"] == multiset(output)[")"]
    decreases |stack|
  {
    if |stack| > 0 && Precedence(token) <= Precedence(stack[|stack| - 1]) {
      var top := stack[|stack| - 1];
      assert stack == stack[..|stack| - 1] + [top];
      LiteralsAppend(output, [top]);
      PopWhileNotWeakerFacts(token, stack[..|stack| - 1], output + [top]);
    }
  }

  /** One step fails exactly on a ")" with no "(" on the stack; otherwise it moves the stack's
      "(" count by the token's depth change and sends literals, and nothing but operators, to the output. */
  lemma PostfixStepFacts(token: string, stack: seq<string>, output: seq<string>)
    requires AllStackTokens(stack)
    ensures PostfixStep(token, stack, output).Failure? <==> token == ")" && multiset(stack)["("] == 0
    ensures PostfixStep(token, stack, output).Success? ==>
      var next := PostfixStep(token, stack, output).value;
      && AllStackTokens(next.0)
      && multiset(next.0)["("] == multiset(stack)["("] + Delta(token)
      && Literals(next.1) == Literals(output) + Literals([token])
      && multiset(next.1)[")"] == multiset(output)[")"]
      && multiset(next.1)["("] == multiset(output)["("]
  {
    if !IsOperator(token) {
      LiteralsAppend(output, [token]);
    } else if token == "(" {
    } else if token == ")" {
      CloseStepFacts(stack, output);
    } else {
      PopWhileNotWeakerFacts(token, stack, output);
    }
  }

  /** The ")" case of PostfixStepFacts. */
  lemma CloseStepFacts(stack: seq<string>, output: seq<string>)
    requires AllStackTokens(stack)
    ensures PostfixStep(")", stack, output).Failure? <==> multiset(stack)["("] == 0
    ensures PostfixStep(")", stack, output).Success? ==>
      var next := PostfixStep(")", stack, output).value;
      && AllStackTokens(next.0)
      && multiset(next.0)["("] == multiset(stack)["("] - 1
      && Literals(next.1) == Literals(output)
      && multiset(next.1)[")"] == multiset(output)[")"]
      && multiset(next.1)["("] == multiset(output)["("]
  {
    PopUntilOpenFacts(stack, output);
    var r := PopUntilOpen(stack, output);
    if r.0 != [] {
      assert r.0 == r.0[..|r.0| - 1] + ["("];
    }
  }

  lemma {:induction false} PostfixFromFails(infix: seq<string>, stack: seq<string>, output: seq<string>)
    requires AllStackTokens(stack)
    ensures PostfixFrom(infix, stack, output).Failure? <==> !NeverBelowZero(multiset(stack)["("], infix)
    decreases |infix|
  {
    if infix != [] {
      PostfixStepFacts(infix[0], stack, output);
      var step := PostfixStep(infix[0], stack, output);
      if step.Success? {
        PostfixFromFails(infix[1..], step.value.0, step.value.1);
      }
    }
  }

  /** Draining the stack at the end adds no literal to the output. */
  lemma DrainKeepsLiterals(stack: seq<string>, output: seq<string>)
    requires AllStackTokens(stack)
    ensures Literals(output + Reversed(stack)) == Literals(output)
  {
    ReversedFacts(stack);
    LiteralsAppend(output, Reversed(stack));
  }

  lemma LiteralsThroughStep(infix: seq<string>, output: seq<string>, output': seq<string>, v: seq<string>)
    requires infix != []
    requires Literals(output') == Literals(output) + Literals([infix[0]])
    requires Literals(v) == Literals(output') + Literals(infix[1..])
    ensures Literals(v) == Literals(output) + Literals(infix)
  {
    LiteralsCons(infix);
    var a, b, c := Literals(output), Literals([infix[0]]), Literals(infix[1..]);
    SeqAssoc(a, b, c);
  }

  lemma SeqAssoc<T>(a: seq<T>, b: seq<T>, c: seq<T>)
    ensures (a + b) + c == a + (b + c)
  {
  }

  lemma AppendFront<T>(a: seq<T>, b: seq<T>)
    requires |b| >= 1
    ensures a + [b[0]] + b[1..] == a + b
  {
    SeqAssoc(a, [b[0]], b[1..]);
    assert [b[0]] + b[1..] == b;
  }

  lemma {:induction false} PostfixFromLiterals(infix: seq<string>, stack: seq<string>, output: seq<string>)
    requires AllStackTokens(stack) && PostfixFrom(infix, stack, output).Success?
    ensures Literals(PostfixFrom(infix, stack, output).value) == Literals(output) + Literals(infix)
    decreases |infix|
  {
    if infix == [] {
      DrainKeepsLiterals(stack, output);
    } else {
      var next := PostfixStep(infix[0], stack, output).value;
      PostfixStepFacts(infix[0], stack, output);
      assert PostfixFrom(infix, stack, output) == PostfixFrom(infix[1..], next.0, next.1);
      PostfixFromLiterals(infix[1..], next.0, next.1);
      LiteralsThroughStep(infix, output, next.1, PostfixFrom(infix, stack, output).value);
    }
  }

  lemma {:induction false} PostfixFromParens(infix: seq<string>, stack: seq<string>, output: seq<string>)
    requires AllStackTokens(stack) && PostfixFrom(infix, stack, output).Success?
    ensures var v := PostfixFrom(infix, stack, output).value;
      && multiset(v)[")"] == multiset(output)[")"]
      && multiset(v)["("] == multiset(output)["("] + multiset(stack)["("] + Depth(infix)
    decreases |infix|
  {
    if infix == [] {
      ReversedFacts(stack);
      assert multiset(output + Reversed(stack)) == multiset(output) + multiset(stack);
    } else {
      DepthCons(infix);
      PostfixStepFacts(infix[0], stack, output);
      var next := PostfixStep(infix[0], stack, output).value;
      assert PostfixFrom(infix, stack, output) == PostfixFrom(infix[1..], next.0, next.1);
      PostfixFromParens(infix[1..], next.0, next.1);
    }
  }

  /** The first token's depth change, then the rest's depth. */
  lemma DepthCons(infix: seq<string>)
    requires infix != []
    ensures Depth(infix) == Delta(infix[0]) + Depth(infix[1..])
  {
    assert infix == [infix[0]] + infix[1..];
    assert multiset(infix) == multiset([infix[0]]) + multiset(infix[1..]);
  }

  /** The conversion fails exactly when some ")" has no "(" left to close. */
  lemma PostfixFailsIff(infix: seq<string>)
    ensures Postfix(infix).Failure? <==> !ClosersMatched(infix)
  {
    PostfixFromFails(infix, [], []);
    NeverBelowZeroIff(0, infix);
    assert infix[..0] == [];
  }

  /** A successful conversion keeps the literals in their order, drops every ")" and passes
      every unmatched "(" through to the output. */
  lemma PostfixOutput(infix: seq<string>)
    requires Postfix(infix).Success?
    ensures Literals(Postfix(infix).value) == Literals(infix)
    ensures ")" !in Postfix(infix).value
    ensures multiset(Postfix(infix).value)["("] == Depth(infix)
  {
    PostfixFromLiterals(infix, [], []);
    PostfixFromParens(infix, [], []);
  }

  /** AND binds tighter than OR, and equal operators associate to the left. */
  lemma BinaryPrecedence(a: string, op1: string, b: string, op2: string, c: string)
    requires !IsOperator(a) && !IsOperator(b) && !IsOperator(c)
    requires (op1 == "AND" || op1 == "OR") && (op2 == "AND" || op2 == "OR")
    ensures Postfix([a, op1, b, op2, c]) ==
      if Precedence(op1) < Precedence(op2) then Success([a, b, c, op2, op1]) else Success([a, b, op1, c, op2])
  {
    var e: seq<string> := [];
    calc {
      Postfix([a, op1, b, op2, c]);
      { assert [a, op1, b, op2, c] == [a] + [op1, b, op2, c];
        LiteralStep(a, [op1, b, op2, c], e, e); }
      PostfixFrom([op1, b, op2, c], e, e + [a]);
      { assert [op1, b, op2, c] == [op1] + [b, op2, c];
        assert e + [a] == [a];
        OperatorStep(op1, [b, op2, c], e, [a]); }
      PostfixFrom([b, op2, c], e + [op1], [a]);
      { assert [b, op2, c] == [b] + [op2, c];
        assert e + [op1] == [op1];
        LiteralStep(b, [op2, c], [op1], [a]); }
      PostfixFrom([op2, c], [op1], [a] + [b]);
      { assert [op2, c] == [op2] + [c] && [a] + [b] == [a, b]; }
      PostfixFrom([op2] + [c], [op1], [a, b]);
    }
    OperatorStep(op2, [c], [op1], [a, b]);
    assert [c] == [c] + e;
    if Precedence(op1) < Precedence(op2) {
      calc {
        PostfixFrom([op2] + [c], [op1], [a, b]);
        PostfixFrom([c], [op1] + [op2], [a, b]);
        { assert [op1] + [op2] == [op1, op2];
          LiteralStep(c, e, [op1, op2], [a, b]); }
        PostfixFrom(e, [op1, op2], [a, b] + [c]);
        { ReversedPair(op1, op2); }
        Success([a, b] + [c] + [op2, op1]);
        { assert [a, b] + [c] + [op2, op1] == [a, b, c, op2, op1]; }
        Success([a, b, c, op2, op1]);
      }
    } else {
      PopsLast(op2, op1, [a, b]);
      calc {
        PostfixFrom([op2] + [c], [op1], [a, b]);
        PostfixFrom([c], e + [op2], [a, b] + [op1]);
        { assert e + [op2] == [op2];
          LiteralStep(c, e, [op2], [a, b] + [op1]); }
        PostfixFrom(e, [op2], [a, b] + [op1] + [c]);
        { ReversedSingle(op2); }
        Success([a, b] + [op1] + [c] + [op2]);
        { assert [a, b] + [op1] + [c] + [op2] == [a, b, op1, c, op2]; }
        Success([a, b, op1, c, op2]);
      }
    }
  }

  /** NOT binds tighter than either binary operator. */
  lemma NotBindsTightest(a: string, op: string, b: string)
    requires !IsOperator(a) && !IsOperator(b)
    requires op == "AND" || op == "OR"
    ensures Postfix(["NOT", a, op, b]) == Success([a, "NOT", b, op])
  {
    var e: seq<string> := [];
    calc {
      Postfix(["NOT", a, op, b]);
      { assert ["NOT", a, op, b] == ["NOT"] + [a, op, b];
        OperatorStep("NOT", [a, op, b], e, e); }
      PostfixFrom([a, op, b], e + ["NOT"], e);
      { assert [a, op, b] == [a] + [op, b];
        LiteralStep(a, [op, b], ["NOT"], e); }
      PostfixFrom([op, b], ["NOT"], e + [a]);
      { assert [op, b] == [op] + [b];
        assert e + [a] == [a];
        OperatorStep(op, [b], ["NOT"], [a]);
        PopsLast(op, "NOT", [a]); }
      PostfixFrom([b], e + [op], [a] + ["NOT"]);
      { assert [b] == [b] + e;
        assert e + [op] == [op] && [a] + ["NOT"] == [a, "NOT"];
        LiteralStep(b, e, [op], [a, "NOT"]); }
      PostfixFrom(e, [op], [a, "NOT"] + [b]);
      { ReversedSingle(op); }
      Success([a, "NOT"] + [b] + [op]);
      { assert [a, "NOT"] + [b] + [op] == [a, "NOT", b, op]; }
      Success([a, "NOT", b, op]);
    }
  }

  /** A literal goes straight to the output. */
  lemma LiteralStep(t: string, rest: seq<string>, stack: seq<string>, output: seq<string>)
    requires !IsOperator(t)
    ensures PostfixFrom([t] + rest, stack, output) == PostfixFrom(rest, stack, output + [t])
  {
    assert ([t] + rest)[0] == t && ([t] + rest)[1..] == rest;
  }

  /** A binary operator or NOT pops what binds at least as tightly, then is pushed. */
  lemma OperatorStep(op: string, rest: seq<string>, stack: seq<string>, output: seq<string>)
    requires op == "AND" || op == "OR" || op == "NOT"
    ensures PostfixFrom([op] + rest, stack, output) ==
      PostfixFrom(rest, PopWhileNotWeaker(op, stack, output).0 + [op], PopWhileNotWeaker(op, stack, output).1)
  {
    assert ([op] + rest)[0] == op && ([op] + rest)[1..] == rest;
  }

  /** An operator pops a single stacked operator that binds at least as tightly. */
  lemma PopsLast(op: string, top: string, output: seq<string>)
    requires 0 <= Precedence(op) <= Precedence(top)
    ensures PopWhileNotWeaker(op, [top], output) == ([], output + [top])
  {
    assert [top][..0] == [];
  }

  lemma ReversedSingle(x: string)
    ensures Reversed([x]) == [x]
  {
    assert [x][..0] == [];
  }

  lemma ReversedPair(x: string, y: string)
    ensures Reversed([x, y]) == [y, x]
  {
    assert [x, y][..1] == [x];
    ReversedSingle(x);
  }

  // ---------------------------------------------------------------------------
  // Properties of the tree construction

  /** The node shapes PostfixToTree builds: a literal leaf, NOT over one operand, and any other
      operator token (an unmatched "(" included) over two operands. */
  predicate WellTyped(n: ParserNode) {
    match n
    case Leaf(t) => !IsOperator(t)
    case Unary(t, c) => t == "NOT" && WellTyped(c)
    case Binary(t, l, r) => IsOperator(t) && TypeOf(t) != NOT && WellTyped(l) && WellTyped(r)
  }

  /** The postfix form of a tree: operands first, operator last. */
  function PostOrder(n: ParserNode): seq<string> {
    match n
    case Leaf(t) => [t]
    case Unary(t, c) => PostOrder(c) + [t]
    case Binary(t, l, r) => PostOrder(l) + PostOrder(r) + [t]
  }

  lemma {:induction false} TreeFromPostOrder(n: ParserNode, rest: seq<string>, stack: seq<ParserNode>)
    requires WellTyped(n)
    ensures TreeFrom(PostOrder(n) + rest, stack) == TreeFrom(rest, stack + [n])
  {
    match n
    case Leaf(t) =>
      assert ([t] + rest)[1..] == rest;
    case Unary(t, c) =>
      assert PostOrder(n) + rest == PostOrder(c) + ([t] + rest);
      TreeFromPostOrder(c, [t] + rest, stack);
      assert ([t] + rest)[1..] == rest;
      assert (stack + [c])[..|stack|] == stack;
    case Binary(t, l, r) =>
      assert PostOrder(n) + rest == PostOrder(l) + (PostOrder(r) + ([t] + rest));
      TreeFromPostOrder(l, PostOrder(r) + ([t] + rest), stack);
      TreeFromPostOrder(r, [t] + rest, stack + [l]);
      assert ([t] + rest)[1..] == rest;
      assert (stack + [l] + [r])[..|stack|] == stack;
  }

  /** Building the tree from a well-typed tree's postfix form gives that tree back. */
  lemma TreeRoundTrip(n: ParserNode)
    requires WellTyped(n)
    ensures Tree(PostOrder(n)) == Success(n)
  {
    TreeFromPostOrder(n, [], []);
    assert PostOrder(n) + [] == PostOrder(n);
  }

  /** When the postfix holds two complete operands, only the last one survives: the
      reduction returns the top of its stack and drops what lies below. */
  lemma TreeKeepsLastOperand(first: ParserNode, last: ParserNode)
    requires WellTyped(first) && WellTyped(last)
    ensures Tree(PostOrder(first) + PostOrder(last)) == Success(last)
  {
    var none: seq<ParserNode> := [];
    TreeFromPostOrder(first, PostOrder(last), none);
    assert none + [first] == [first];
    TreeFromPostOrder(last, [], [first]);
    assert PostOrder(last) + [] == PostOrder(last);
    assert TreeFrom([], [first, last]) == Success(last);
  }

  lemma {:induction false} TreeFromWellTyped(postfix: seq<string>, stack: seq<ParserNode>)
    requires forall k :: 0 <= k < |stack| ==> WellTyped(stack[k])
    ensures TreeFrom(postfix, stack).Success? ==> WellTyped(TreeFrom(postfix, stack).value)
    decreases |postfix|
  {
    if postfix != [] {
      var token := postfix[0];
      if !IsOperator(token) {
        TreeFromWellTyped(postfix[1..], stack + [Leaf(token)]);
      } else if TypeOf(token) == NOT {
        if stack != [] {
          TreeFromWellTyped(postfix[1..], stack[..|stack| - 1] + [Unary(token, stack[|stack| - 1])]);
        }
      } else if |stack| >= 2 {
        TreeFromWellTyped(postfix[1..], stack[..|stack| - 2] + [Binary(token, stack[|stack| - 2], stack[|stack| - 1])]);
      }
    }
  }

  /** Every tree the parser returns has one of the shapes PostfixToTree builds. */
  lemma ParseWellTyped(queryString: string)
    ensures Parse(queryString).Success? ==> WellTyped(Parse(queryString).value)
  {
    var postfix := Postfix(Tokens(queryString));
    if postfix.Success? {
      assert Parse(queryString) == TreeFrom(postfix.value, []);
      TreeFromWellTyped(postfix.value, []);
    } else {
      assert Parse(queryString).Failure?;
    }
  }

  /** An operator between two literals follows them in the postfix form. */
  lemma PostfixOfOneOperator(a: string, op: string, b: string)
    requires !IsOperator(a) && !IsOperator(b)
    requires op == "AND" || op == "OR" || op == "NOT"
    ensures Postfix([a, op, b]) == Success([a, b, op])
  {
    var t: seq<string> := [a, op, b];
    var e: seq<string> := [];
    assert t[0] == a && t[1..][0] == op && t[2..][0] == b;
    assert t[1..][1..] == t[2..] && t[2..][1..] == e;
    assert PostfixStep(a, e, e).Success? && PostfixStep(a, e, e).value.0 == e && PostfixStep(a, e, e).value.1 == [a];
    assert PostfixFrom(t, e, e) == PostfixFrom(t[1..], e, [a]);
    assert PopWhileNotWeaker(op, e, [a]) == (e, [a]);
    assert PostfixStep(op, e, [a]).Success? && PostfixStep(op, e, [a]).value.0 == [op] && PostfixStep(op, e, [a]).value.1 == [a];
    assert PostfixFrom(t[1..], e, [a]) == PostfixFrom(t[2..], [op], [a]);
    assert PostfixStep(b, [op], [a]).Success? && PostfixStep(b, [op], [a]).value.0 == [op] && PostfixStep(b, [op], [a]).value.1 == [a, b];
    assert PostfixFrom(t[2..], [op], [a]) == PostfixFrom(e, [op], [a, b]);
    assert [op][..0] == e;
    assert Reversed([op]) == [op];
    assert [a, b] + [op] == [a, b, op];
  }

  /** Two words with nothing between them are parsed as if OR stood between them. */
  lemma AdjacentWordsMeanOr(a: string, b: string)
    requires PlainWord(a) && PlainWord(b) && !IsOperator(a) && !IsOperator(b)
    ensures Parse(JoinBySpace([a, b])) == Parse(JoinBySpace([a, "OR", b]))
    ensures Parse(JoinBySpace([a, b])) == Success(Binary("OR", Leaf(a), Leaf(b)))
  {
    var words: seq<string> := [a, "OR", b];
    assert forall k :: 0 <= k < |words| ==> PlainWord(words[k]);
    ScanJoinedWords(words);
    assert [a, b][1..] == [b] && [a, b][1..][1..] == [];
    ScanJoinedWords([a, b]);
    assert WithImplicitOr([b]) == [b];
    assert Tokens(JoinBySpace([a, b])) == words;
    WithImplicitOrFixedIff(words);
    assert NoAdjacentLiterals(words);
    assert Tokens(JoinBySpace(words)) == words;
    PostfixOfOneOperator(a, "OR", b);
    var tree := Binary("OR", Leaf(a), Leaf(b));
    assert PostOrder(tree) == [a, b, "OR"];
    TreeRoundTrip(tree);
  }

  /** Operator letters inside a word stay in the literal: "ANDY" and "fishAND" are search terms,
      joined by the implicit OR, while a free-standing AND between them is an operator. */
  lemma OperatorLettersInsideWords()
    ensures Tokens("ANDY fishAND") == ["ANDY", "OR", "fishAND"]
    ensures Tokens("ANDY AND fishAND") == ["ANDY", "AND", "fishAND"]
  {
    var two: seq<string> := ["ANDY", "fishAND"];
    assert two[1..] == ["fishAND"];
    assert JoinBySpace(two) == "ANDY fishAND";
    ScanJoinedWords(two);
    var three: seq<string> := ["ANDY", "AND", "fishAND"];
    assert three[1..] == ["AND", "fishAND"] && three[1..][1..] == ["fishAND"];
    assert JoinBySpace(three) == "ANDY AND fishAND";
    ScanJoinedWords(three);
    assert WithImplicitOr(["fishAND"]) == ["fishAND"];
    assert WithImplicitOr(["AND", "fishAND"]) == ["AND", "fishAND"];
  }

  /** "a NOT b" parses to NOT b alone: NOT takes one operand and the reduction keeps only the
      top of its stack, so the left word is silently dropped. */
  lemma NotAfterWordDropsWord(a: string, b: string)
    requires PlainWord(a) && PlainWord(b) && !IsOperator(a) && !IsOperator(b)
    ensures Parse(JoinBySpace([a, "NOT", b])) == Success(Unary("NOT", Leaf(b)))
  {
    var words: seq<string> := [a, "NOT", b];
    assert forall k :: 0 <= k < |words| ==> PlainWord(words[k]);
    ScanJoinedWords(words);
    WithImplicitOrFixedIff(words);
    assert NoAdjacentLiterals(words);
    assert Tokens(JoinBySpace(words)) == words;
    PostfixOfOneOperator(a, "NOT", b);
    var kept := Unary("NOT", Leaf(b));
    assert PostOrder(Leaf(a)) + PostOrder(kept) == [a, b, "NOT"];
    TreeKeepsLastOperand(Leaf(a), kept);
  }

  /** A parenthesis that follows a literal with no space starts a new buffer instead of being
      a token: "a(b" scans to the literal "a" and the literal "(b". */
  lemma ParenthesisGluesToNextWord(a: string, b: string)
    requires PlainWord(a) && PlainWord(b) && !IsOperator(a)
    ensures Scan(a + "(" + b) == [a, "(" + b]
  {
    var s := a + "(" + b;
    var n := |a|;
    assert s[0] == a[0] && a[0] in a;
    var empty: string := "";
    assert empty + [s[0]] == [s[0]];
    forall k | 1 <= k < n
      ensures s[k] != ' ' && s[k] != '(' && s[k] != ')'
    {
      assert s[k] == a[k] && a[k] in a;
    }
    ScanAccumulates(s, 1, n, [s[0]], []);
    assert [s[0]] + s[1..n] == a;
    assert s[n] == '(';
    var none: seq<string> := [];
    assert [s[n]] == "(" && none + [a] == [a];
    assert ScanFrom(s, n, a, none) == ScanFrom(s, n + 1, "(", [a]);
    forall k | n + 1 <= k < |s|
      ensures s[k] != ' ' && s[k] != '(' && s[k] != ')'
    {
      assert s[k] == b[k - n - 1] && b[k - n - 1] in b;
    }
    ScanAccumulates(s, n + 1, |s|, "(", [a]);
    assert s[n + 1..|s|] == b;
    assert ScanFrom(s, |s|, "(" + b, [a]) == [a, "(" + b];
  }
}
