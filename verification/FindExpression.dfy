/** From the text of an expression to its answer for a name. */
module FindExpression {
  import opened FindGrammar
  import opened FindLanguage
  import opened FindMatcher
  import opened FindMeaning
  import opened FindParser
  import opened FindReading

  /** `compile` and then `matches`, for an expression without an attribute filter. The answer is what
      the one derivation of the expression means; there is none if there is no such derivation. */
  method Find(expression: string, value: string) returns (matched: Result<bool>)
    ensures matched.Ok? <==>
            0 < |expression| < MAX_EXPRESSION && '{' !in expression && '}' !in expression && exists a :: Derives(a, expression)
    ensures matched.Ok? ==>
            forall a :: Derives(a, expression) ==> (matched.value <==> AlternationMeans(a, value))
  {
    forall a ensures ReadExpression(expression) == Ok(a) <==>
                     0 < |expression| < MAX_EXPRESSION && '{' !in expression && '}' !in expression && Derives(a, expression) {
      ReadExpressionExact(expression, a);
    }
    var parser := new Parser(expression);
    var root := parser.Parse();
    if root.Err? {
      return Err(root.error);
    }
    forall a ensures InLanguage(AlternationTree(a), value) <==> AlternationMeans(a, value) {
      AlternationMeaning(a, value);
    }
    var answer := Matches(root.value, value);
    matched := Ok(answer);
  }
}
