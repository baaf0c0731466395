/**
 * Whole expressions parsed by the grammar's rule table: the trees below show
 * how precedence, associativity and the omitted middle operand of the
 * conditional come out. Each is stated for every token sequence of the given
 * shape (any numbers, any variables, any operator of the named level) and
 * holds at every fuel from a small bound on.
 */
module PhpExpressionExamples {
  import opened Tokens
  import opened Peg
  import opened PhpGrammar
  import opened PhpExpressions

  /** `a + b * c`: numbers around an additive and then a multiplicative operator. */
  predicate SumOfProductShape(toks: seq<Token>) {
    && |toks| == 6 && toks[5].kind == Eof
    && toks[0].kind == NumericLiteral && toks[2].kind == NumericLiteral && toks[4].kind == NumericLiteral
    && OperatorAt(9, toks, 1) && OperatorAt(10, toks, 3)
  }

  /** `b * c` within `a + b * c`: one multiplicative node. */
  function Product(toks: seq<Token>): Node<RuleName>
    requires |toks| == 6
  {
    Inner(MultiplicativeExpr, [NumberNode(toks[2]), Inner(MuliplicativeOperator, [Leaf(toks[3])]), NumberNode(toks[4])])
  }

  /** `a + b * c`: an additive node whose right operand is the product. */
  function Sum(toks: seq<Token>): Node<RuleName>
    requires |toks| == 6
  {
    Inner(AdditiveExpr, [NumberNode(toks[0]), Inner(AdditiveOperator, [Leaf(toks[1])]), Product(toks)])
  }

  lemma ProductOperand(g: RuleName -> RuleDef<RuleName>, toks: seq<Token>, f: nat)
    requires ChainTable(g) && ScalarTable(g) && PrimaryTable(g) && SumOfProductShape(toks) && f >= 8
    ensures Match(g, Ref(MultiplicativeExpr), toks, 2, f) == Matched(5, [Product(toks)])
  {
    ExpressionEndAt(toks, 5);
    OperatorLevelUnique(toks, 3, 10);
    NumberClimbs(g, 11, toks, 2, f - 1);
    NumberClimbs(g, 11, toks, 4, f - 1);
    BinaryPair(g, 10, toks, 2, 3, NumberNode(toks[2]), 5, NumberNode(toks[4]), f);
    assert Chain[10] == MultiplicativeExpr;
    assert OperatorNodes(10, toks[3]) == [Inner(MuliplicativeOperator, [Leaf(toks[3])])];
    assert [NumberNode(toks[2])] + OperatorNodes(10, toks[3]) + [NumberNode(toks[4])] == Product(toks).children;
  }

  lemma SumLevel(g: RuleName -> RuleDef<RuleName>, toks: seq<Token>, f: nat)
    requires ChainTable(g) && ScalarTable(g) && PrimaryTable(g) && SumOfProductShape(toks) && f >= 9
    ensures Match(g, Ref(AdditiveExpr), toks, 0, f) == Matched(5, [Sum(toks)])
  {
    ExpressionEndAt(toks, 5);
    OperatorLevelUnique(toks, 1, 9);
    NumberClimbs(g, 10, toks, 0, f - 1);
    ProductOperand(g, toks, f - 1);
    BinaryPair(g, 9, toks, 0, 1, NumberNode(toks[0]), 5, Product(toks), f);
    assert Chain[9] == AdditiveExpr;
    assert OperatorNodes(9, toks[1]) == [Inner(AdditiveOperator, [Leaf(toks[1])])];
    assert [NumberNode(toks[0])] + OperatorNodes(9, toks[1]) + [Product(toks)] == Sum(toks).children;
  }

  lemma SumAtLogicalOr(g: RuleName -> RuleDef<RuleName>, toks: seq<Token>, f: nat)
    requires ChainTable(g) && ScalarTable(g) && PrimaryTable(g) && SumOfProductShape(toks) && f >= 18
    ensures Match(g, Ref(LogicalOrExpr), toks, 0, f) == Matched(5, [Sum(toks)])
  {
    ExpressionEndAt(toks, 5);
    SumLevel(g, toks, f - 9);
    Climb(g, 0, 9, toks, 0, 5, Sum(toks), f);
  }

  /**
   * Multiplication binds tighter than addition: in `a + b * c` the product
   * `b * c` is the right operand of the sum, and the whole expression is one
   * expression node over the additive node.
   */
  lemma SumOfProductTree(g: RuleName -> RuleDef<RuleName>, toks: seq<Token>, f: nat)
    requires ExpressionTable(g) && SumOfProductShape(toks) && f >= 21
    ensures Match(g, Ref(Expression), toks, 0, f) == Matched(5, [Inner(Expression, [Sum(toks)])])
  {
    ExpressionEndAt(toks, 5);
    SumAtLogicalOr(g, toks, f - 3);
    ReferenceAssignmentFails(g, toks, 0, f - 2);
    ExpressionOfOr(g, toks, 0, 5, Sum(toks), f);
  }

  /** `a - b - c`: numbers around two additive operators. */
  predicate DifferenceShape(toks: seq<Token>) {
    && |toks| == 6 && toks[5].kind == Eof
    && toks[0].kind == NumericLiteral && toks[2].kind == NumericLiteral && toks[4].kind == NumericLiteral
    && OperatorAt(9, toks, 1) && OperatorAt(9, toks, 3)
  }

  /** The operands of `a - b - c`, each a number at the multiplicative level. */
  lemma DifferenceOperands(g: RuleName -> RuleDef<RuleName>, toks: seq<Token>, f: nat)
    requires ChainTable(g) && ScalarTable(g) && PrimaryTable(g) && DifferenceShape(toks) && f >= 7
    ensures Match(g, Ref(MultiplicativeExpr), toks, 0, f) == Matched(1, [NumberNode(toks[0])])
    ensures Match(g, Ref(MultiplicativeExpr), toks, 2, f) == Matched(3, [NumberNode(toks[2])])
    ensures Match(g, Ref(MultiplicativeExpr), toks, 4, f) == Matched(5, [NumberNode(toks[4])])
  {
    OperatorLevelUnique(toks, 1, 9);
    OperatorLevelUnique(toks, 3, 9);
    ExpressionEndAt(toks, 5);
    NumberClimbs(g, 10, toks, 0, f);
    NumberClimbs(g, 10, toks, 2, f);
    NumberClimbs(g, 10, toks, 4, f);
  }

  /** The repetition of the additive level over `- b - c`. */
  lemma DifferenceTail(g: RuleName -> RuleDef<RuleName>, toks: seq<Token>, f: nat)
    requires ChainTable(g) && DifferenceShape(toks) && f >= 1
    requires Match(g, Ref(MultiplicativeExpr), toks, 2, f) == Matched(3, [NumberNode(toks[2])])
    requires Match(g, Ref(MultiplicativeExpr), toks, 4, f) == Matched(5, [NumberNode(toks[4])])
    ensures MatchLoop(g, OperatorOperand(9), toks, 1, f)
         == Matched(5, [Inner(AdditiveOperator, [Leaf(toks[1])]), NumberNode(toks[2]),
                        Inner(AdditiveOperator, [Leaf(toks[3])]), NumberNode(toks[4])])
  {
    var op1, op3 := OperatorNodes(9, toks[1]), OperatorNodes(9, toks[3]);
    ExpressionEndAt(toks, 5);
    LoopEnd(g, 9, toks, 5, f);
    LoopMore(g, 9, toks, 3, 5, NumberNode(toks[4]), 5, [], f);
    LoopMore(g, 9, toks, 1, 3, NumberNode(toks[2]), 5, op3 + [NumberNode(toks[4])], f);
    assert op1 == [Inner(AdditiveOperator, [Leaf(toks[1])])] && op3 == [Inner(AdditiveOperator, [Leaf(toks[3])])];
  }

  /** The additive level over `a - b - c`, once its operands and its repetition are known. */
  lemma DifferenceLevel(g: RuleName -> RuleDef<RuleName>, toks: seq<Token>, f: nat)
    requires ChainTable(g) && DifferenceShape(toks) && f >= 1
    requires Match(g, Ref(MultiplicativeExpr), toks, 0, f - 1) == Matched(1, [NumberNode(toks[0])])
    requires MatchLoop(g, OperatorOperand(9), toks, 1, f - 1)
          == Matched(5, [Inner(AdditiveOperator, [Leaf(toks[1])]), NumberNode(toks[2]),
                         Inner(AdditiveOperator, [Leaf(toks[3])]), NumberNode(toks[4])])
    ensures Match(g, Ref(AdditiveExpr), toks, 0, f)
         == Matched(5, [Inner(AdditiveExpr, [
              NumberNode(toks[0]), Inner(AdditiveOperator, [Leaf(toks[1])]),
              NumberNode(toks[2]), Inner(AdditiveOperator, [Leaf(toks[3])]), NumberNode(toks[4])])])
  {
    var rest := [Inner(AdditiveOperator, [Leaf(toks[1])]), NumberNode(toks[2]),
                 Inner(AdditiveOperator, [Leaf(toks[3])]), NumberNode(toks[4])];
    assert Chain[9] == AdditiveExpr && Chain[10] == MultiplicativeExpr;
    LevelFrom(g, 9, toks, 0, 1, NumberNode(toks[0]), 5, rest, f);
    assert Match(g, Ref(Chain[9]), toks, 0, f) == Matched(5, [Inner(Chain[9], [NumberNode(toks[0])] + rest)]);
    assert [NumberNode(toks[0])] + rest == [NumberNode(toks[0]), rest[0], rest[1], rest[2], rest[3]];
  }

  /**
   * Operators of one level do not nest: `a - b - c` is a single additive node
   * holding the three operands and the two operators from left to right; the
   * reading `(a - b) - c` is left to whoever walks the tree.
   */
  lemma DifferenceIsFlat(g: RuleName -> RuleDef<RuleName>, toks: seq<Token>, f: nat)
    requires ChainTable(g) && ScalarTable(g) && PrimaryTable(g) && DifferenceShape(toks) && f >= 8
    ensures Match(g, Ref(AdditiveExpr), toks, 0, f)
         == Matched(5, [Inner(AdditiveExpr, [
              NumberNode(toks[0]), Inner(AdditiveOperator, [Leaf(toks[1])]),
              NumberNode(toks[2]), Inner(AdditiveOperator, [Leaf(toks[3])]), NumberNode(toks[4])])])
  {
    DifferenceOperands(g, toks, f - 1);
    DifferenceTail(g, toks, f - 1);
    DifferenceLevel(g, toks, f);
  }

  /** A number that ends the input is an assignment expression on its own. */
  lemma NumberAssignment(g: RuleName -> RuleDef<RuleName>, toks: seq<Token>, pos: nat, f: nat)
    requires ExpressionTable(g) && pos + 1 < |toks| && f >= 18
    requires toks[pos].kind == NumericLiteral && toks[pos + 1].kind == Eof
    ensures Match(g, Ref(AssignmentExpr), toks, pos, f) == Matched(pos + 1, [NumberNode(toks[pos])])
  {
    ExpressionEndAt(toks, pos + 1);
    NumberPostfix(g, toks, pos, f - 15);
    ReferenceAssignmentFails(g, toks, pos, f - 1);
    AssignmentOfOperand(g, toks, pos, pos + 1, NumberNode(toks[pos]), f);
  }

  /** `$a = $b = n`: two plain variables, two `=` and a number. */
  predicate ChainedShape(toks: seq<Token>) {
    && |toks| == 6 && toks[5].kind == Eof
    && toks[0].kind == VarIdentifier && !ScalarWord(toks[0].value) && toks[1].kind == Punct(Equ)
    && toks[2].kind == VarIdentifier && !ScalarWord(toks[2].value) && toks[3].kind == Punct(Equ)
    && toks[4].kind == NumericLiteral
  }

  /** `$b = n` within `$a = $b = n`. */
  function InnerAssignment(toks: seq<Token>): Node<RuleName>
    requires |toks| == 6
  {
    Inner(AssignmentExpr, [VariablePostfixNode(toks[2]), Inner(AssignmentOperator, [Leaf(toks[3])]), NumberNode(toks[4])])
  }

  /** A variable followed by `=` and no `&` cannot begin a reference assignment. */
  lemma NoReferenceAssignment(g: RuleName -> RuleDef<RuleName>, toks: seq<Token>, pos: nat, f: nat)
    requires NameTable(g) && VariableTable(g) && pos + 2 < |toks| && f >= 5
    requires toks[pos].kind == VarIdentifier && toks[pos + 1].kind == Punct(Equ)
    requires toks[pos + 2].kind != Punct(Punctuator.And)
    ensures Match(g, AssignmentExprDef().body.alternatives[0], toks, pos, f) == NoMatch
  {
    NonChainPunctuatorAt(toks, pos + 1);
    VariableMatch(g, toks, pos, f);
    ReferenceAssignmentFailsAfterVariable(g, toks, pos, pos + 1, [VariableNode(toks[pos])], f);
  }

  /** A variable followed by `=` is, as a conditional, the variable alone. */
  lemma VariableConditional(g: RuleName -> RuleDef<RuleName>, toks: seq<Token>, pos: nat, f: nat)
    requires ExpressionTable(g) && pos + 1 < |toks| && f >= 21
    requires toks[pos].kind == VarIdentifier && !ScalarWord(toks[pos].value) && toks[pos + 1].kind == Punct(Equ)
    ensures Match(g, Ref(ConditionalExpr), toks, pos, f) == Matched(pos + 1, [VariablePostfixNode(toks[pos])])
  {
    var n := VariablePostfixNode(toks[pos]);
    NonChainPunctuatorAt(toks, pos + 1);
    VariablePostfix(g, toks, pos, f - 14);
    PostfixClimbs(g, 0, toks, pos, pos + 1, n, f - 1);
    ConditionalPlain(g, toks, pos, pos + 1, n, f);
  }

  /** `$v = ` followed by an assignment: an assignment node over the variable, the operator and that assignment. */
  lemma AssignVariable(g: RuleName -> RuleDef<RuleName>, toks: seq<Token>, pos: nat, e: nat, m: Node<RuleName>, f: nat)
    requires ExpressionTable(g) && pos + 2 < |toks| && f >= 23
    requires toks[pos].kind == VarIdentifier && !ScalarWord(toks[pos].value) && toks[pos + 1].kind == Punct(Equ)
    requires toks[pos + 2].kind != Punct(Punctuator.And)
    requires Match(g, Ref(AssignmentExpr), toks, pos + 2, f - 1) == Matched(e, [m])
    ensures Match(g, Ref(AssignmentExpr), toks, pos, f)
         == Matched(e, [Inner(AssignmentExpr, [VariablePostfixNode(toks[pos]), Inner(AssignmentOperator, [Leaf(toks[pos + 1])]), m])])
  {
    NoReferenceAssignment(g, toks, pos, f - 1);
    VariableConditional(g, toks, pos, f - 1);
    AssignmentOfEquals(g, toks, pos, pos + 1, VariablePostfixNode(toks[pos]), e, m, f);
  }

  /**
   * Assignment nests to the right: in `$a = $b = n` the right operand of the
   * outer assignment is the assignment `$b = n`.
   */
  lemma ChainedAssignmentTree(g: RuleName -> RuleDef<RuleName>, toks: seq<Token>, f: nat)
    requires ExpressionTable(g) && ChainedShape(toks) && f >= 26
    ensures Match(g, Ref(Expression), toks, 0, f)
         == Matched(5, [Inner(Expression, [Inner(AssignmentExpr, [VariablePostfixNode(toks[0]),
              Inner(AssignmentOperator, [Leaf(toks[1])]), InnerAssignment(toks)])])])
  {
    NumberAssignment(g, toks, 4, f - 3);
    AssignVariable(g, toks, 2, 5, NumberNode(toks[4]), f - 2);
    AssignVariable(g, toks, 0, 5, InnerAssignment(toks), f - 1);
    ExpressionOfAssignment(g, toks, 0, 5, Inner(AssignmentExpr, [VariablePostfixNode(toks[0]),
      Inner(AssignmentOperator, [Leaf(toks[1])]), InnerAssignment(toks)]), f);
  }

  /** `a ? : b`: two numbers around `?` and `:`. */
  predicate ShortTernaryShape(toks: seq<Token>) {
    && |toks| == 5 && toks[4].kind == Eof
    && toks[0].kind == NumericLiteral && toks[1].kind == Punct(Query)
    && toks[2].kind == Punct(Colon) && !ScalarWord(toks[2].value) && toks[3].kind == NumericLiteral
  }

  /** The parts of `a ? : b`: the first operand, the omitted middle and the last operand. */
  lemma ShortTernaryOperands(g: RuleName -> RuleDef<RuleName>, toks: seq<Token>, f: nat)
    requires ExpressionTable(g) && ShortTernaryShape(toks) && f >= 21
    ensures Match(g, Ref(LogicalOrExpr), toks, 0, f) == Matched(1, [NumberNode(toks[0])])
    ensures Match(g, Optional(Ref(AssignmentExpr)), toks, 2, f) == Matched(2, [])
    ensures Match(g, Ref(AssignmentExpr), toks, 3, f) == Matched(4, [NumberNode(toks[3])])
  {
    NonChainPunctuatorAt(toks, 1);
    NumberClimbs(g, 0, toks, 0, f);
    MiddleOmitted(g, toks, 2, f);
    NumberAssignment(g, toks, 3, f);
  }

  /**
   * The middle operand of the conditional may be left out: `a ? : b` is a
   * conditional node with four children, the two operands and the two
   * punctuators, and nothing in place of the middle.
   */
  lemma ShortTernaryTree(g: RuleName -> RuleDef<RuleName>, toks: seq<Token>, f: nat)
    requires ExpressionTable(g) && ShortTernaryShape(toks) && f >= 22
    ensures Match(g, Ref(ConditionalExpr), toks, 0, f)
         == Matched(4, [Inner(ConditionalExpr, [NumberNode(toks[0]), Leaf(toks[1]), Leaf(toks[2]), NumberNode(toks[3])])])
  {
    ShortTernaryOperands(g, toks, f - 1);
    ConditionalTernary(g, toks, 0, 1, NumberNode(toks[0]), 2, [], 4, NumberNode(toks[3]), f);
    assert [NumberNode(toks[0]), Leaf(toks[1])] + [] + [Leaf(toks[2]), NumberNode(toks[3])]
        == [NumberNode(toks[0]), Leaf(toks[1]), Leaf(toks[2]), NumberNode(toks[3])];
  }

  /** The examples hold for the grammar's rule table itself. */
  lemma ExamplesInGrammar(toks: seq<Token>, f: nat)
    requires f >= 26
    ensures SumOfProductShape(toks) ==>
      Match(Definition, Ref(Expression), toks, 0, f) == Matched(5, [Inner(Expression, [Sum(toks)])])
    ensures ChainedShape(toks) ==>
      Match(Definition, Ref(Expression), toks, 0, f)
        == Matched(5, [Inner(Expression, [Inner(AssignmentExpr, [VariablePostfixNode(toks[0]),
             Inner(AssignmentOperator, [Leaf(toks[1])]), InnerAssignment(toks)])])])
    ensures ShortTernaryShape(toks) ==>
      Match(Definition, Ref(ConditionalExpr), toks, 0, f)
        == Matched(4, [Inner(ConditionalExpr, [NumberNode(toks[0]), Leaf(toks[1]), Leaf(toks[2]), NumberNode(toks[3])])])
    ensures DifferenceShape(toks) ==>
      Match(Definition, Ref(AdditiveExpr), toks, 0, f)
        == Matched(5, [Inner(AdditiveExpr, [
             NumberNode(toks[0]), Inner(AdditiveOperator, [Leaf(toks[1])]),
             NumberNode(toks[2]), Inner(AdditiveOperator, [Leaf(toks[3])]), NumberNode(toks[4])])])
  {
    DefinitionExpressionTable();
    if SumOfProductShape(toks) {
      SumOfProductTree(Definition, toks, f);
    }
    if ChainedShape(toks) {
      ChainedAssignmentTree(Definition, toks, f);
    }
    if ShortTernaryShape(toks) {
      ShortTernaryTree(Definition, toks, f);
    }
    if DifferenceShape(toks) {
      DifferenceIsFlat(Definition, toks, f);
    }
  }
}
