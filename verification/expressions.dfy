/**
 * What the expression rules of the PHP grammar parse, and into which tree:
 * the precedence chain, left-to-right binary levels, the collapse of a level
 * that matched a single operand, and the right-recursive assignment.
 *
 * Every statement is about the rule table `Definition` run by the engine of
 * module Peg, for any fuel above a stated bound.
 */
module PhpExpressions {
  import opened Tokens
  import opened Peg
  import opened PhpGrammar

  /**
   * The binary levels from the loosest to the tightest, followed by the unary
   * level that the tightest one is built on. Concatenation binds tighter than
   * multiplication.
   */
  const Chain: seq<RuleName> := [
    LogicalOrExpr, LogicalXorExpr, LogicalAndExpr, BitewiseOrExpr, BitewiseXorExpr, BitewiseAndExpr,
    EqualityExpr, RelationalExpr, ShiftExpr, AdditiveExpr, MultiplicativeExpr, ConcatenationExpr, UnaryExpr]

  /** The operator of each binary level of `Chain`. */
  const Operators: seq<E> := [
    Ref(LogicalOrOperator), K(Keyword.Xor), Ref(LogicalAndOperator), P(Punctuator.Or), P(Punctuator.Xor),
    P(Punctuator.And), Ref(EqualityOperator), Ref(RelationalOperator), Ref(ShiftOperator),
    Ref(AdditiveOperator), Ref(MuliplicativeOperator), P(Dot)]

  /** The token types that the operator of each binary level accepts. */
  const OperatorKinds: seq<set<TokenKind>> := [
    {Punct(OrOr), Kw(Keyword.Or)}, {Kw(Keyword.Xor)}, {Punct(AndAnd), Kw(Keyword.And)},
    {Punct(Punctuator.Or)}, {Punct(Punctuator.Xor)}, {Punct(Punctuator.And)},
    {Punct(NotEqual2), Punct(NotEqual), Punct(Equal2), Punct(Equal), Punct(NotEqualBis)},
    {Punct(Le), Punct(Ge), Punct(Lt), Punct(Gt)}, {Punct(Sl), Punct(Sr)},
    {Punct(Plus), Punct(Minus)}, {Punct(Star), Punct(Div), Punct(Mod)}, {Punct(Dot)}]

  /** An operator of binary level `i` stands at position `q`. */
  predicate OperatorAt(i: nat, toks: seq<Token>, q: nat)
    requires i < 12
  {
    q < |toks| && toks[q].kind in OperatorKinds[i]
  }

  /** What the operator of level `i` contributes to the tree when it matches token `t`. */
  function OperatorNodes(i: nat, t: Token): seq<Node<RuleName>>
    requires i < 12
  {
    if Operators[i].Ref? then [Inner(Operators[i].rule, [Leaf(t)])] else [Leaf(t)]
  }

  /**
   * What the precedence chain needs of a rule table: the binary levels and
   * the operator rules as the grammar defines them.
   */
  predicate ChainTable(g: RuleName -> RuleDef<RuleName>) {
    && g(LogicalOrExpr) == LogicalOrExprDef() && g(LogicalXorExpr) == LogicalXorExprDef()
    && g(LogicalAndExpr) == LogicalAndExprDef() && g(BitewiseOrExpr) == BitewiseOrExprDef()
    && g(BitewiseXorExpr) == BitewiseXorExprDef() && g(BitewiseAndExpr) == BitewiseAndExprDef()
    && g(EqualityExpr) == EqualityExprDef() && g(RelationalExpr) == RelationalExprDef()
    && g(ShiftExpr) == ShiftExprDef() && g(AdditiveExpr) == AdditiveExprDef()
    && g(MultiplicativeExpr) == MultiplicativeExprDef() && g(ConcatenationExpr) == ConcatenationExprDef()
    && g(LogicalOrOperator) == LogicalOrOperatorDef() && g(LogicalAndOperator) == LogicalAndOperatorDef()
    && g(EqualityOperator) == EqualityOperatorDef() && g(RelationalOperator) == RelationalOperatorDef()
    && g(ShiftOperator) == ShiftOperatorDef() && g(AdditiveOperator) == AdditiveOperatorDef()
    && g(MuliplicativeOperator) == MuliplicativeOperatorDef()
  }

  /** What the expression proofs need of a rule table: the chain and the rules an operand is made of. */
  predicate ExpressionTable(g: RuleName -> RuleDef<RuleName>) {
    ChainTable(g) && OperandTable(g)
  }

  /** The rules of the operands of the chain, of the conditional and of the assignment. */
  predicate OperandTable(g: RuleName -> RuleDef<RuleName>) {
    NameTable(g) && VariableTable(g) && ScalarTable(g) && PrimaryTable(g) && AssignmentTable(g)
  }

  /** The rules of class and namespace names. */
  predicate NameTable(g: RuleName -> RuleDef<RuleName>) {
    && g(ClassName) == ClassNameDef()
    && g(FullyQualifiedClassName) == FullyQualifiedClassNameDef()
    && g(NamespaceName) == NamespaceNameDef()
    && g(FullyQualifiedName) == FullyQualifiedNameDef()
    && g(QualifiedName) == QualifiedNameDef()
    && g(UnqualifiedName) == UnqualifiedNameDef()
  }

  /** The rules of variables and of the accesses that may follow one. */
  predicate VariableTable(g: RuleName -> RuleDef<RuleName>) {
    && g(Variable) == VariableDef()
    && g(VariableWithoutObjects) == VariableWithoutObjectsDef()
    && g(SimpleIndirectReference) == SimpleIndirectReferenceDef()
    && g(ReferenceVariable) == ReferenceVariableDef()
    && g(CompoundVariable) == CompoundVariableDef()
    && g(DimensionalOffset) == DimensionalOffsetDef()
    && g(ObjectMemberAccess) == ObjectMemberAccessDef()
    && g(ClassMemberAccess) == ClassMemberAccessDef()
    && g(FunctionCallParameterList) == FunctionCallParameterListDef()
  }

  /** The rules of literals and closures. */
  predicate ScalarTable(g: RuleName -> RuleDef<RuleName>) {
    && g(CombinedScalarOffset) == CombinedScalarOffsetDef()
    && g(CombinedScalar) == CombinedScalarDef()
    && g(FunctionExpression) == FunctionExpressionDef()
    && g(CommonScalar) == CommonScalarDef()
    && g(BooleanLiteral) == BooleanLiteralDef()
  }

  /** The unary and postfix levels and the remaining heads of a postfix expression. */
  predicate PrimaryTable(g: RuleName -> RuleDef<RuleName>) {
    && g(UnaryExpr) == UnaryExprDef()
    && g(PostfixExpr) == PostfixExprDef()
    && g(CastType) == CastTypeDef()
    && g(NewExpr) == NewExprDef()
    && g(ExitExpr) == ExitExprDef()
    && g(ListAssignmentExpr) == ListAssignmentExprDef()
    && g(ListExpr) == ListExprDef()
    && g(ParenthesisExpression) == ParenthesisExpressionDef()
    && g(InternalFunction) == InternalFunctionDef()
  }

  /** The conditional, the assignment and its operators, and the expression rule. */
  predicate AssignmentTable(g: RuleName -> RuleDef<RuleName>) {
    && g(ConditionalExpr) == ConditionalExprDef()
    && g(AssignmentExpr) == AssignmentExprDef()
    && g(AssignmentOperator) == AssignmentOperatorDef()
    && g(CompoundAssignment) == CompoundAssignmentDef()
    && g(LogicalAssignment) == LogicalAssignmentDef()
    && g(Expression) == ExpressionDef()
  }

  /** The grammar's own table has the rules the expression proofs rely on. */
  lemma DefinitionExpressionTable()
    ensures ExpressionTable(Definition)
  {
    DefinitionChainTable();
    DefinitionOperandTable();
  }

  lemma DefinitionChainTable()
    ensures ChainTable(Definition)
  {
  }

  lemma DefinitionOperandTable()
    ensures OperandTable(Definition)
  {
    DefinitionNameTable();
    DefinitionVariableTable();
    DefinitionScalarTable();
    DefinitionPrimaryTable();
    DefinitionAssignmentTable();
  }

  lemma DefinitionNameTable() ensures NameTable(Definition) {}
  lemma DefinitionVariableTable() ensures VariableTable(Definition) {}
  lemma DefinitionScalarTable() ensures ScalarTable(Definition) {}
  lemma DefinitionPrimaryTable() ensures PrimaryTable(Definition) {}
  lemma DefinitionAssignmentTable() ensures AssignmentTable(Definition) {}

  /** Each binary level is `next (operator next)*` over the next tighter level, collapsing into a lone child. */
  lemma LevelRule(g: RuleName -> RuleDef<RuleName>, i: nat)
    requires ChainTable(g) && i < 12
    ensures g(Chain[i]) == Collapsing(Level(Chain[i + 1], Operators[i]))
  {
    if i == 0 {} else if i == 1 {} else if i == 2 {} else if i == 3 {} else if i == 4 {} else if i == 5 {}
    else if i == 6 {} else if i == 7 {} else if i == 8 {} else if i == 9 {} else if i == 10 {} else {}
  }

  /** A rule that is an ordered choice among token types matches one token of those types. */
  lemma OperatorRule(g: RuleName -> RuleDef<RuleName>, x: RuleName, alts: seq<E>, toks: seq<Token>, q: nat, f: nat)
    requires q <= |toks| && f >= 1
    requires g(x) == Rule(FirstOf(alts)) && KindTerminals(alts)
    ensures Match(g, Ref(x), toks, q, f) ==
      if q < |toks| && toks[q].kind in Kinds(alts) then Matched(q + 1, [Inner(x, [Leaf(toks[q])])]) else NoMatch
  {
    FirstOfKinds(g, alts, toks, q, f - 1);
  }

  lemma LogicalOrOperatorMatch(g: RuleName -> RuleDef<RuleName>, toks: seq<Token>, q: nat, f: nat)
    requires g(LogicalOrOperator) == LogicalOrOperatorDef() && q <= |toks| && f >= 1
    ensures Match(g, Ref(LogicalOrOperator), toks, q, f) ==
      if q < |toks| && toks[q].kind in {Punct(OrOr), Kw(Keyword.Or)}
      then Matched(q + 1, [Inner(LogicalOrOperator, [Leaf(toks[q])])]) else NoMatch
  {
    OperatorRule(g, LogicalOrOperator, [P(OrOr), K(Keyword.Or)], toks, q, f);
  }

  lemma LogicalAndOperatorMatch(g: RuleName -> RuleDef<RuleName>, toks: seq<Token>, q: nat, f: nat)
    requires g(LogicalAndOperator) == LogicalAndOperatorDef() && q <= |toks| && f >= 1
    ensures Match(g, Ref(LogicalAndOperator), toks, q, f) ==
      if q < |toks| && toks[q].kind in {Punct(AndAnd), Kw(Keyword.And)}
      then Matched(q + 1, [Inner(LogicalAndOperator, [Leaf(toks[q])])]) else NoMatch
  {
    OperatorRule(g, LogicalAndOperator, [P(AndAnd), K(Keyword.And)], toks, q, f);
  }

  lemma EqualityOperatorMatch(g: RuleName -> RuleDef<RuleName>, toks: seq<Token>, q: nat, f: nat)
    requires g(EqualityOperator) == EqualityOperatorDef() && q <= |toks| && f >= 1
    ensures Match(g, Ref(EqualityOperator), toks, q, f) ==
      if q < |toks| && toks[q].kind in {Punct(NotEqual2), Punct(NotEqual), Punct(Equal2), Punct(Equal), Punct(NotEqualBis)}
      then Matched(q + 1, [Inner(EqualityOperator, [Leaf(toks[q])])]) else NoMatch
  {
    OperatorRule(g, EqualityOperator, [P(NotEqual2), P(NotEqual), P(Equal2), P(Equal), P(NotEqualBis)], toks, q, f);
  }

  lemma RelationalOperatorMatch(g: RuleName -> RuleDef<RuleName>, toks: seq<Token>, q: nat, f: nat)
    requires g(RelationalOperator) == RelationalOperatorDef() && q <= |toks| && f >= 1
    ensures Match(g, Ref(RelationalOperator), toks, q, f) ==
      if q < |toks| && toks[q].kind in {Punct(Le), Punct(Ge), Punct(Lt), Punct(Gt)}
      then Matched(q + 1, [Inner(RelationalOperator, [Leaf(toks[q])])]) else NoMatch
  {
    OperatorRule(g, RelationalOperator, [P(Le), P(Ge), P(Lt), P(Gt)], toks, q, f);
  }

  lemma ShiftOperatorMatch(g: RuleName -> RuleDef<RuleName>, toks: seq<Token>, q: nat, f: nat)
    requires g(ShiftOperator) == ShiftOperatorDef() && q <= |toks| && f >= 1
    ensures Match(g, Ref(ShiftOperator), toks, q, f) ==
      if q < |toks| && toks[q].kind in {Punct(Sl), Punct(Sr)}
      then Matched(q + 1, [Inner(ShiftOperator, [Leaf(toks[q])])]) else NoMatch
  {
    OperatorRule(g, ShiftOperator, [P(Sl), P(Sr)], toks, q, f);
  }

  lemma AdditiveOperatorMatch(g: RuleName -> RuleDef<RuleName>, toks: seq<Token>, q: nat, f: nat)
    requires g(AdditiveOperator) == AdditiveOperatorDef() && q <= |toks| && f >= 1
    ensures Match(g, Ref(AdditiveOperator), toks, q, f) ==
      if q < |toks| && toks[q].kind in {Punct(Plus), Punct(Minus)}
      then Matched(q + 1, [Inner(AdditiveOperator, [Leaf(toks[q])])]) else NoMatch
  {
    OperatorRule(g, AdditiveOperator, [P(Plus), P(Minus)], toks, q, f);
  }

  lemma MuliplicativeOperatorMatch(g: RuleName -> RuleDef<RuleName>, toks: seq<Token>, q: nat, f: nat)
    requires g(MuliplicativeOperator) == MuliplicativeOperatorDef() && q <= |toks| && f >= 1
    ensures Match(g, Ref(MuliplicativeOperator), toks, q, f) ==
      if q < |toks| && toks[q].kind in {Punct(Star), Punct(Div), Punct(Mod)}
      then Matched(q + 1, [Inner(MuliplicativeOperator, [Leaf(toks[q])])]) else NoMatch
  {
    OperatorRule(g, MuliplicativeOperator, [P(Star), P(Div), P(Mod)], toks, q, f);
  }

  /** The operator of level `i` matches exactly one token, one of the level's operator types. */
  lemma OperatorMatch(g: RuleName -> RuleDef<RuleName>, i: nat, toks: seq<Token>, q: nat, f: nat)
    requires ChainTable(g) && i < 12 && q <= |toks| && f >= 1
    ensures Match(g, Operators[i], toks, q, f) ==
      if OperatorAt(i, toks, q) then Matched(q + 1, OperatorNodes(i, toks[q])) else NoMatch
  {
    if i == 0 {
      LogicalOrOperatorMatch(g, toks, q, f);
    } else if i == 2 {
      LogicalAndOperatorMatch(g, toks, q, f);
    } else if i == 6 {
      EqualityOperatorMatch(g, toks, q, f);
    } else if i == 7 {
      RelationalOperatorMatch(g, toks, q, f);
    } else if i == 8 {
      ShiftOperatorMatch(g, toks, q, f);
    } else if i == 9 {
      AdditiveOperatorMatch(g, toks, q, f);
    } else if i == 10 {
      MuliplicativeOperatorMatch(g, toks, q, f);
    }
  }

  /** The repeated part of binary level `i`: an operator, then an operand of the next tighter level. */
  function OperatorOperand(i: nat): E
    requires i < 12
  {
    Seq([Operators[i], Ref(Chain[i + 1])])
  }

  /** The repetition of a level stops, taking nothing, where no operator of the level stands. */
  lemma LoopEnd(g: RuleName -> RuleDef<RuleName>, i: nat, toks: seq<Token>, q: nat, f: nat)
    requires ChainTable(g) && i < 12 && q <= |toks| && f >= 1
    requires !OperatorAt(i, toks, q)
    ensures MatchLoop(g, OperatorOperand(i), toks, q, f) == Matched(q, [])
  {
    OperatorMatch(g, i, toks, q, f);
    assert Match(g, OperatorOperand(i), toks, q, f) == NoMatch;
  }

  /**
   * Where an operator of the level stands and an operand follows it, the
   * repetition takes both and goes on after the operand.
   */
  lemma LoopMore(g: RuleName -> RuleDef<RuleName>, i: nat, toks: seq<Token>, q: nat, q2: nat, b: Node<RuleName>,
                 e: nat, rest: seq<Node<RuleName>>, f: nat)
    requires ChainTable(g) && i < 12 && q < |toks| && f >= 1
    requires OperatorAt(i, toks, q)
    requires Match(g, Ref(Chain[i + 1]), toks, q + 1, f) == Matched(q2, [b])
    requires MatchLoop(g, OperatorOperand(i), toks, q2, f) == Matched(e, rest)
    ensures MatchLoop(g, OperatorOperand(i), toks, q, f) == Matched(e, OperatorNodes(i, toks[q]) + [b] + rest)
  {
    OperatorMatch(g, i, toks, q, f);
    var pair := OperatorOperand(i);
    assert MatchSeq(g, pair.items[1..], toks, q + 1, f) == Matched(q2, [b]);
    assert Match(g, pair, toks, q, f) == Matched(q2, OperatorNodes(i, toks[q]) + [b]);
  }

  /**
   * A binary level is its first operand followed by the repetition: a single
   * node when the repetition took nothing, otherwise one node of the level
   * holding the operands and operators left to right.
   */
  lemma LevelFrom(g: RuleName -> RuleDef<RuleName>, i: nat, toks: seq<Token>, pos: nat, q: nat, a: Node<RuleName>,
                  e: nat, rest: seq<Node<RuleName>>, f: nat)
    requires ChainTable(g) && i < 12 && pos <= |toks| && f >= 1
    requires Match(g, Ref(Chain[i + 1]), toks, pos, f - 1) == Matched(q, [a])
    requires MatchLoop(g, OperatorOperand(i), toks, q, f - 1) == Matched(e, rest)
    ensures Match(g, Ref(Chain[i]), toks, pos, f) == Matched(e, if rest == [] then [a] else [Inner(Chain[i], [a] + rest)])
  {
    LevelRule(g, i);
    var body := Level(Chain[i + 1], Operators[i]);
    assert MatchSeq(g, body.items[1..], toks, q, f - 1) == Matched(e, rest);
    assert Match(g, body, toks, pos, f - 1) == Matched(e, [a] + rest);
  }

  /** A level whose first operand is not followed by its operator collapses into that operand. */
  lemma LevelSingle(g: RuleName -> RuleDef<RuleName>, i: nat, toks: seq<Token>, pos: nat, q: nat, n: Node<RuleName>, f: nat)
    requires ChainTable(g) && i < 12 && pos <= |toks| && f >= 1
    requires Match(g, Ref(Chain[i + 1]), toks, pos, f - 1) == Matched(q, [n])
    requires !OperatorAt(i, toks, q)
    ensures Match(g, Ref(Chain[i]), toks, pos, f) == Matched(q, [n])
  {
    LoopEnd(g, i, toks, q, f - 1);
    LevelFrom(g, i, toks, pos, q, n, q, [], f);
  }

  /**
   * A lone operand passes up the chain unchanged: when level `j` matches a
   * single node and no operator of a looser level follows it, every looser
   * level `i` collapses into that very node (one unit of fuel per level).
   */
  lemma {:induction false} Climb(g: RuleName -> RuleDef<RuleName>, i: nat, j: nat, toks: seq<Token>, pos: nat, q: nat, n: Node<RuleName>, f: nat)
    requires ChainTable(g) && i <= j <= 12 && pos <= |toks| && f >= j - i
    requires Match(g, Ref(Chain[j]), toks, pos, f - (j - i)) == Matched(q, [n])
    requires forall k :: i <= k < j ==> !OperatorAt(k, toks, q)
    ensures Match(g, Ref(Chain[i]), toks, pos, f) == Matched(q, [n])
    decreases j - i
  {
    if i < j {
      Climb(g, i + 1, j, toks, pos, q, n, f - 1);
      LevelSingle(g, i, toks, pos, q, n, f);
    }
  }

  /** The token at `q` would extend a postfix expression (`++`, `--`, `instanceof`). */
  predicate PostfixAt(toks: seq<Token>, q: nat) {
    q < |toks| && toks[q].kind in {Punct(Inc), Punct(Dec), Kw(Instanceof)}
  }

  /** The token at `pos` starts a prefix form of the unary level (`++`, `--`, `+`, `-`, `~`, `!`, `@`, a cast). */
  predicate UnaryPrefixAt(toks: seq<Token>, pos: nat) {
    pos < |toks| && toks[pos].kind in
      {Punct(Inc), Punct(Dec), Punct(Plus), Punct(Minus), Punct(Tilda), Punct(Bang), Punct(At), Punct(LParenthesis)}
  }

  /** A number, as the tree holds it once it has climbed to the unary level. */
  function NumberNode(t: Token): Node<RuleName> {
    Inner(PostfixExpr, [Inner(CommonScalar, [Leaf(t)])])
  }

  /** Where no postfix operator follows, the optional postfix part of a postfix expression takes nothing. */
  lemma NoPostfix(g: RuleName -> RuleDef<RuleName>, toks: seq<Token>, q: nat, f: nat)
    requires q <= |toks| && !PostfixAt(toks, q)
    ensures Match(g, PostfixExprDef().body.items[1], toks, q, f) == Matched(q, [])
  {
    var suffix := PostfixExprDef().body.items[1].body;
    assert Refuses(g, suffix.alternatives[2], toks, q, f);
    ChoiceRefuses(g, suffix.alternatives, toks, q, f);
    RefusedFails(g, suffix, toks, q, f);
  }

  /** The array-literal and closure forms of a postfix expression refuse any other first token. */
  lemma ScalarFormsRefuse(g: RuleName -> RuleDef<RuleName>, toks: seq<Token>, pos: nat, f: nat)
    requires g(CombinedScalarOffset) == CombinedScalarOffsetDef() && g(CombinedScalar) == CombinedScalarDef()
    requires g(FunctionExpression) == FunctionExpressionDef()
    requires pos <= |toks| && f >= 2
    requires !(pos < |toks| && toks[pos].kind in {Kw(Array), Punct(LBracket), Kw(Static), Kw(Function)})
    ensures Refuses(g, Ref(CombinedScalarOffset), toks, pos, f)
    ensures Refuses(g, Ref(FunctionExpression), toks, pos, f)
  {
    var cs := CombinedScalarDef().body.alternatives;
    assert Refuses(g, cs[0], toks, pos, f - 2) && Refuses(g, cs[1], toks, pos, f - 2);
    ChoiceRefuses(g, cs, toks, pos, f - 2);
    assert Refuses(g, Ref(CombinedScalar), toks, pos, f - 1);
    assert RefusesSeq(g, CombinedScalarOffsetDef().body.items, toks, pos, f - 1);
    var fe := FunctionExpressionDef().body.items;
    assert RefusesSeq(g, fe[1..], toks, pos, f - 1);
    assert RefusesSeq(g, fe, toks, pos, f - 1);
  }

  /** A numeric literal is a common scalar holding the token. */
  lemma NumberScalar(g: RuleName -> RuleDef<RuleName>, toks: seq<Token>, pos: nat, f: nat)
    requires g(CommonScalar) == CommonScalarDef() && pos < |toks| && f >= 1 && toks[pos].kind == NumericLiteral
    ensures Match(g, Ref(CommonScalar), toks, pos, f) == Matched(pos + 1, [Inner(CommonScalar, [Leaf(toks[pos])])])
  {
    FirstSkipsRefused(g, CommonScalarDef().body.alternatives, toks, pos, f - 1, 1);
  }

  /** With no postfix operator after it, a postfix expression is its head alone. */
  lemma PostfixOfHead(g: RuleName -> RuleDef<RuleName>, toks: seq<Token>, pos: nat, p: nat, head: seq<Node<RuleName>>, f: nat)
    requires g(PostfixExpr) == PostfixExprDef() && pos <= |toks| && f >= 1
    requires MatchFirst(g, PostfixExprDef().body.items[0].alternatives, toks, pos, f - 1) == Matched(p, head)
    requires !PostfixAt(toks, p)
    ensures Match(g, Ref(PostfixExpr), toks, pos, f) == Matched(p, [Inner(PostfixExpr, head)])
  {
    NoPostfix(g, toks, p, f - 1);
    var items := PostfixExprDef().body.items;
    assert MatchSeq(g, items[1..], toks, p, f - 1) == Matched(p, []);
    assert MatchSeq(g, items, toks, pos, f - 1) == Matched(p, head);
  }

  /** A numeric literal is a postfix expression: a common scalar holding the token. */
  lemma NumberPostfix(g: RuleName -> RuleDef<RuleName>, toks: seq<Token>, pos: nat, f: nat)
    requires ScalarTable(g) && g(PostfixExpr) == PostfixExprDef() && pos + 1 <= |toks| && f >= 3
    requires toks[pos].kind == NumericLiteral && !PostfixAt(toks, pos + 1)
    ensures Match(g, Ref(PostfixExpr), toks, pos, f) == Matched(pos + 1, [NumberNode(toks[pos])])
  {
    ScalarFormsRefuse(g, toks, pos, f - 1);
    var heads := PostfixExprDef().body.items[0].alternatives;
    FirstSkipsRefused(g, heads, toks, pos, f - 1, 2);
    NumberScalar(g, toks, pos, f - 1);
    PostfixOfHead(g, toks, pos, pos + 1, [Inner(CommonScalar, [Leaf(toks[pos])])], f);
  }

  /** The prefix-operator and cast forms of the unary level refuse a token that starts none of them. */
  lemma PrefixFormsRefuse(g: RuleName -> RuleDef<RuleName>, toks: seq<Token>, pos: nat, f: nat)
    requires g(CastType) == CastTypeDef() && pos <= |toks| && f >= 1 && !UnaryPrefixAt(toks, pos)
    ensures forall j :: 0 <= j < 4 ==> Refuses(g, UnaryExprDef().body.alternatives[j], toks, pos, f)
  {
    PrefixOperatorsRefuse(g, toks, pos, f);
    CastRefuses(g, toks, pos, f);
  }

  /** The three prefix-operator forms refuse a token that is none of their operators. */
  lemma PrefixOperatorsRefuse(g: RuleName -> RuleDef<RuleName>, toks: seq<Token>, pos: nat, f: nat)
    requires pos <= |toks| && !UnaryPrefixAt(toks, pos)
    ensures forall j :: 0 <= j < 3 ==> Refuses(g, UnaryExprDef().body.alternatives[j], toks, pos, f)
  {
    OperatorRefuses(g, [P(Inc), P(Dec)], Ref(PostfixExpr), toks, pos, f);
    OperatorRefuses(g, [P(Plus), P(Minus), P(Tilda), P(Bang)], Ref(UnaryExpr), toks, pos, f);
    OperatorRefuses(g, [P(At)], Ref(PostfixExpr), toks, pos, f);
    assert [P(At)][0] == P(At);
  }

  /** A prefix operator, one of `ops`, before an operand refuses a token that starts no prefix form. */
  lemma OperatorRefuses(g: RuleName -> RuleDef<RuleName>, ops: seq<E>, operand: E, toks: seq<Token>, pos: nat, f: nat)
    requires pos <= |toks| && !UnaryPrefixAt(toks, pos)
    requires forall j :: 0 <= j < |ops| ==> ops[j] in [P(Inc), P(Dec), P(Plus), P(Minus), P(Tilda), P(Bang), P(At)]
    ensures Refuses(g, Seq([FirstOf(ops), operand]), toks, pos, f)
    ensures |ops| == 1 ==> Refuses(g, Seq([ops[0], operand]), toks, pos, f)
  {
    ChoiceRefuses(g, ops, toks, pos, f);
  }

  /** The cast form refuses a token other than `(`. */
  lemma CastRefuses(g: RuleName -> RuleDef<RuleName>, toks: seq<Token>, pos: nat, f: nat)
    requires g(CastType) == CastTypeDef() && pos <= |toks| && f >= 1 && !UnaryPrefixAt(toks, pos)
    ensures Refuses(g, UnaryExprDef().body.alternatives[3], toks, pos, f)
  {
    assert RefusesSeq(g, CastTypeDef().body.items, toks, pos, f - 1);
    assert Refuses(g, Ref(CastType), toks, pos, f);
  }

  /** Without a prefix operator or cast, the unary level is the postfix expression itself, collapsed. */
  lemma UnaryOfPostfix(g: RuleName -> RuleDef<RuleName>, toks: seq<Token>, pos: nat, q: nat, n: Node<RuleName>, f: nat)
    requires g(UnaryExpr) == UnaryExprDef() && g(CastType) == CastTypeDef()
    requires pos <= |toks| && f >= 2 && !UnaryPrefixAt(toks, pos)
    requires Match(g, Ref(PostfixExpr), toks, pos, f - 1) == Matched(q, [n])
    ensures Match(g, Ref(UnaryExpr), toks, pos, f) == Matched(q, [n])
  {
    PrefixFormsRefuse(g, toks, pos, f - 1);
    FirstSkipsRefused(g, UnaryExprDef().body.alternatives, toks, pos, f - 1, 4);
  }

  /** The token types a variable can begin with: a name, `static`, `namespace`, `\\`, `$`, `${` or a `$name`. */
  predicate VariableStartKind(k: TokenKind) {
    k in {Kw(Keyword.Namespace), Kw(Static), Punct(NsSeparator), Identifier, Punct(Dolar), VarIdentifier, Punct(DolarLCurly)}
  }

  /** The token types a postfix expression can begin with, its variables included. */
  predicate PostfixStartKind(k: TokenKind) {
    match k
    case Kw(w) =>
      w in {Keyword.Namespace, Static, Array, Function, New, Exit, Die, List, Isset, Keyword.Empty,
            Include, IncludeOnce, Eval, Require, RequireOnce, Clone, Print}
    case Punct(p) => p in {NsSeparator, Dolar, DolarLCurly, LBracket, LParenthesis}
    case Identifier => true
    case VarIdentifier => true
    case Heredoc => true
    case NumericLiteral => true
    case StringLiteral => true
    case _ => false
  }

  /** The token texts that are scalars whatever their type: the boolean and null literals and the magic constants. */
  predicate ScalarWord(v: string) {
    v in {"TRUE", "FALSE", "NULL", "__CLASS__", "__FILE__", "__DIR__", "__FUNCTION__", "__LINE__",
          "__METHOD__", "__NAMESPACE__", "__TRAIT__"}
  }

  /** The token at `pos` can begin a postfix expression. */
  predicate PostfixStartAt(toks: seq<Token>, pos: nat) {
    pos < |toks| && (PostfixStartKind(toks[pos].kind) || ScalarWord(toks[pos].value))
  }

  /** The token at `pos` can begin an expression. */
  predicate ExpressionStartAt(toks: seq<Token>, pos: nat) {
    UnaryPrefixAt(toks, pos) || PostfixStartAt(toks, pos)
  }

  /** A class name begins with `static`, `namespace`, `\` or a name. */
  lemma ClassNameRefuses(g: RuleName -> RuleDef<RuleName>, toks: seq<Token>, pos: nat, f: nat)
    requires NameTable(g) && pos <= |toks| && f >= 4
    requires !(pos < |toks| && toks[pos].kind in {Kw(Static), Kw(Keyword.Namespace), Punct(NsSeparator), Identifier})
    ensures Refuses(g, Ref(ClassName), toks, pos, f)
  {
    var nn := NamespaceNameDef().body.alternatives;
    assert RefusesSeq(g, FullyQualifiedNameDef().body.items, toks, pos, f - 4);
    assert Refuses(g, nn[0], toks, pos, f - 3);
    assert RefusesSeq(g, QualifiedNameDef().body.items, toks, pos, f - 4);
    assert Refuses(g, nn[1], toks, pos, f - 3);
    assert Refuses(g, UnqualifiedNameDef().body, toks, pos, f - 4);
    assert Refuses(g, nn[2], toks, pos, f - 3);
    ChoiceRefuses(g, nn, toks, pos, f - 3);
    var fq := FullyQualifiedClassNameDef().body.alternatives;
    assert Refuses(g, fq[0], toks, pos, f - 2);
    ChoiceRefuses(g, fq, toks, pos, f - 2);
    ChoiceRefuses(g, ClassNameDef().body.alternatives, toks, pos, f - 1);
  }

  /** A variable without member accesses begins with `$`, `${` or a `$name`. */
  lemma PlainVariableRefuses(g: RuleName -> RuleDef<RuleName>, toks: seq<Token>, pos: nat, f: nat)
    requires VariableTable(g) && pos <= |toks| && f >= 3
    requires !(pos < |toks| && toks[pos].kind in {Punct(Dolar), VarIdentifier, Punct(DolarLCurly)})
    ensures Refuses(g, Ref(VariableWithoutObjects), toks, pos, f)
  {
    var cv := CompoundVariableDef().body.alternatives;
    assert Refuses(g, cv[1], toks, pos, f - 3);
    ChoiceRefuses(g, cv, toks, pos, f - 3);
    assert RefusesSeq(g, ReferenceVariableDef().body.items, toks, pos, f - 2);
    var items := VariableWithoutObjectsDef().body.items;
    assert Refuses(g, Ref(SimpleIndirectReference), toks, pos, f - 1);
    assert RefusesSeq(g, items[1..], toks, pos, f - 1);
    assert RefusesSeq(g, items, toks, pos, f - 1);
  }

  /** A variable begins with one of `VariableStartKinds`. */
  lemma VariableRefuses(g: RuleName -> RuleDef<RuleName>, toks: seq<Token>, pos: nat, f: nat)
    requires NameTable(g) && VariableTable(g) && pos <= |toks| && f >= 5
    requires !(pos < |toks| && VariableStartKind(toks[pos].kind))
    ensures Refuses(g, Ref(Variable), toks, pos, f)
  {
    ClassNameRefuses(g, toks, pos, f - 1);
    PlainVariableRefuses(g, toks, pos, f - 1);
    var heads := VariableDef().body.items[0].alternatives;
    assert Refuses(g, heads[0], toks, pos, f - 1);
    ChoiceRefuses(g, heads, toks, pos, f - 1);
  }

  /** A common scalar is a heredoc, number or string token, or one of the words of `ScalarWord`. */
  lemma CommonScalarRefuses(g: RuleName -> RuleDef<RuleName>, toks: seq<Token>, pos: nat, f: nat)
    requires ScalarTable(g) && pos <= |toks| && f >= 2
    requires !(pos < |toks| && (toks[pos].kind in {Heredoc, NumericLiteral, StringLiteral} || ScalarWord(toks[pos].value)))
    ensures Refuses(g, Ref(CommonScalar), toks, pos, f)
  {
    ChoiceRefuses(g, BooleanLiteralDef().body.alternatives, toks, pos, f - 2);
    var alts := CommonScalarDef().body.alternatives;
    assert Refuses(g, alts[3], toks, pos, f - 1);
    ChoiceRefuses(g, alts, toks, pos, f - 1);
  }

  /** The `new`, `exit`, `list`, parenthesised and built-in-function heads begin with their own keyword or `(`. */
  lemma KeywordHeadsRefuse(g: RuleName -> RuleDef<RuleName>, toks: seq<Token>, pos: nat, f: nat)
    requires PrimaryTable(g) && pos <= |toks| && f >= 2
    requires !(pos < |toks| && PostfixStartKind(toks[pos].kind))
    ensures forall j :: 4 <= j < 9 ==> Refuses(g, PostfixExprDef().body.items[0].alternatives[j], toks, pos, f)
  {
    var heads := PostfixExprDef().body.items[0].alternatives;
    assert RefusesSeq(g, NewExprDef().body.items, toks, pos, f - 1);
    assert Refuses(g, heads[4], toks, pos, f);
    ChoiceRefuses(g, ExitExprDef().body.items[0].alternatives, toks, pos, f - 1);
    assert RefusesSeq(g, ExitExprDef().body.items, toks, pos, f - 1);
    assert Refuses(g, heads[5], toks, pos, f);
    assert RefusesSeq(g, ListExprDef().body.items, toks, pos, f - 2);
    assert RefusesSeq(g, ListAssignmentExprDef().body.items, toks, pos, f - 1);
    assert Refuses(g, heads[6], toks, pos, f);
    assert RefusesSeq(g, ParenthesisExpressionDef().body.items, toks, pos, f - 1);
    assert Refuses(g, heads[7], toks, pos, f);
    BuiltinsRefuse(g, toks, pos, f - 1);
    assert Refuses(g, heads[8], toks, pos, f);
  }

  /** Each built-in function form begins with its own keyword. */
  lemma BuiltinsRefuse(g: RuleName -> RuleDef<RuleName>, toks: seq<Token>, pos: nat, f: nat)
    requires pos <= |toks| && !(pos < |toks| && PostfixStartKind(toks[pos].kind))
    ensures Refuses(g, InternalFunctionDef().body, toks, pos, f)
  {
    var builtins := InternalFunctionDef().body.alternatives;
    assert forall j :: 0 <= j < |builtins| ==> RefusesSeq(g, builtins[j].items, toks, pos, f);
    ChoiceRefuses(g, builtins, toks, pos, f);
  }

  /** A postfix expression begins with a token of a `PostfixStartKind` or one of the words of `ScalarWord`. */
  lemma PostfixRefuses(g: RuleName -> RuleDef<RuleName>, toks: seq<Token>, pos: nat, f: nat)
    requires OperandTable(g) && pos <= |toks| && f >= 6
    requires !PostfixStartAt(toks, pos)
    ensures Refuses(g, Ref(PostfixExpr), toks, pos, f)
  {
    ScalarFormsRefuse(g, toks, pos, f - 1);
    CommonScalarRefuses(g, toks, pos, f - 1);
    VariableRefuses(g, toks, pos, f - 1);
    KeywordHeadsRefuse(g, toks, pos, f - 1);
    var heads := PostfixExprDef().body.items[0].alternatives;
    ChoiceRefuses(g, heads, toks, pos, f - 1);
  }

  /** The unary level begins with a prefix operator, a cast or a postfix expression. */
  lemma UnaryRefuses(g: RuleName -> RuleDef<RuleName>, toks: seq<Token>, pos: nat, f: nat)
    requires OperandTable(g) && pos <= |toks| && f >= 7 && !ExpressionStartAt(toks, pos)
    ensures Refuses(g, Ref(UnaryExpr), toks, pos, f)
  {
    PrefixFormsRefuse(g, toks, pos, f - 1);
    PostfixRefuses(g, toks, pos, f - 1);
    ChoiceRefuses(g, UnaryExprDef().body.alternatives, toks, pos, f - 1);
  }

  /** Every level of the chain begins as the unary level does. */
  lemma {:induction false} ChainRefuses(g: RuleName -> RuleDef<RuleName>, i: nat, toks: seq<Token>, pos: nat, f: nat)
    requires ExpressionTable(g) && i <= 12 && pos <= |toks| && f >= 7 + (12 - i) && !ExpressionStartAt(toks, pos)
    ensures Refuses(g, Ref(Chain[i]), toks, pos, f)
    decreases 12 - i
  {
    if i == 12 {
      UnaryRefuses(g, toks, pos, f);
    } else {
      ChainRefuses(g, i + 1, toks, pos, f - 1);
      LevelRule(g, i);
      assert RefusesSeq(g, Level(Chain[i + 1], Operators[i]).items, toks, pos, f - 1);
    }
  }

  /** The conditional begins as its logical-or operand does. */
  lemma ConditionalRefuses(g: RuleName -> RuleDef<RuleName>, toks: seq<Token>, pos: nat, f: nat)
    requires ExpressionTable(g) && pos <= |toks| && f >= 20 && !ExpressionStartAt(toks, pos)
    ensures Refuses(g, Ref(ConditionalExpr), toks, pos, f)
  {
    ChainRefuses(g, 0, toks, pos, f - 1);
    assert RefusesSeq(g, ConditionalExprDef().body.items, toks, pos, f - 1);
  }

  /**
   * An expression begins with a token that `ExpressionStartAt` admits: at any
   * other token the expression rule refuses, given enough fuel to reach the
   * tokens that every alternative would have to begin with.
   */
  lemma ExpressionRefuses(g: RuleName -> RuleDef<RuleName>, toks: seq<Token>, pos: nat, f: nat)
    requires ExpressionTable(g) && pos <= |toks| && f >= 22 && !ExpressionStartAt(toks, pos)
    ensures Refuses(g, Ref(Expression), toks, pos, f)
    ensures Refuses(g, Ref(AssignmentExpr), toks, pos, f - 1)
  {
    ConditionalRefuses(g, toks, pos, f - 2);
    VariableRefuses(g, toks, pos, f - 2);
    var alts := AssignmentExprDef().body.alternatives;
    assert Refuses(g, alts[0], toks, pos, f - 2);
    assert Refuses(g, alts[1], toks, pos, f - 2);
    ChoiceRefuses(g, alts, toks, pos, f - 2);
  }

  /** Where no expression can begin, matching an expression fails. */
  lemma ExpressionFails(g: RuleName -> RuleDef<RuleName>, toks: seq<Token>, pos: nat, f: nat)
    requires ExpressionTable(g) && pos <= |toks| && f >= 22 && !ExpressionStartAt(toks, pos)
    ensures Match(g, Ref(Expression), toks, pos, f) == NoMatch
  {
    ExpressionRefuses(g, toks, pos, f);
    RefusedFails(g, Ref(Expression), toks, pos, f);
  }

  /** The token at `q` would extend a variable with an access: `->`, `::`, `[`, `(` or `{`. */
  predicate AccessAt(toks: seq<Token>, q: nat) {
    q < |toks| && toks[q].kind in
      {Punct(Arrow), Punct(DoubleColon), Punct(LBracket), Punct(LParenthesis), Punct(LCurlyBrace)}
  }

  /** A plain `$name` variable, as the tree holds it. */
  function VariableNode(t: Token): Node<RuleName> {
    Inner(Variable, [Inner(VariableWithoutObjects, [Inner(ReferenceVariable, [Inner(CompoundVariable, [Leaf(t)])])])])
  }

  /** A `$name` token not followed by an access is a reference variable holding a compound variable. */
  lemma ReferenceVariableMatch(g: RuleName -> RuleDef<RuleName>, toks: seq<Token>, pos: nat, f: nat)
    requires VariableTable(g) && pos + 1 <= |toks| && f >= 2
    requires toks[pos].kind == VarIdentifier && !AccessAt(toks, pos + 1)
    ensures Match(g, Ref(ReferenceVariable), toks, pos, f)
         == Matched(pos + 1, [Inner(ReferenceVariable, [Inner(CompoundVariable, [Leaf(toks[pos])])])])
  {
    var t := toks[pos];
    var cv := [Inner(CompoundVariable, [Leaf(t)])];
    assert MatchFirst(g, CompoundVariableDef().body.alternatives, toks, pos, f - 2) == Matched(pos + 1, [Leaf(t)]);
    assert Match(g, Ref(CompoundVariable), toks, pos, f - 1) == Matched(pos + 1, cv);
    var offsets := ReferenceVariableDef().body.items[1].body;
    assert RefusesSeq(g, DimensionalOffsetDef().body.items, toks, pos + 1, f - 2);
    assert Refuses(g, offsets.alternatives[0], toks, pos + 1, f - 1);
    assert Refuses(g, offsets.alternatives[1], toks, pos + 1, f - 1);
    ChoiceRefuses(g, offsets.alternatives, toks, pos + 1, f - 1);
    RefusedLoop(g, offsets, toks, pos + 1, f - 1);
    var items := ReferenceVariableDef().body.items;
    assert MatchSeq(g, items[1..], toks, pos + 1, f - 1) == Matched(pos + 1, []);
    assert MatchSeq(g, items, toks, pos, f - 1) == Matched(pos + 1, cv);
  }

  /** A `$name` token not followed by an access is a variable without member accesses. */
  lemma PlainVariableMatch(g: RuleName -> RuleDef<RuleName>, toks: seq<Token>, pos: nat, f: nat)
    requires VariableTable(g) && pos + 1 <= |toks| && f >= 3
    requires toks[pos].kind == VarIdentifier && !AccessAt(toks, pos + 1)
    ensures Match(g, Ref(VariableWithoutObjects), toks, pos, f) == Matched(pos + 1, VariableNode(toks[pos]).children)
  {
    var items := VariableWithoutObjectsDef().body.items;
    assert Refuses(g, Ref(SimpleIndirectReference), toks, pos, f - 1);
    RefusedOptional(g, Ref(SimpleIndirectReference), toks, pos, f - 1);
    ReferenceVariableMatch(g, toks, pos, f - 1);
    var rv := VariableNode(toks[pos]).children[0].children;
    assert MatchSeq(g, items[1..], toks, pos, f - 1) == Matched(pos + 1, rv);
    assert MatchSeq(g, items, toks, pos, f - 1) == Matched(pos + 1, rv);
  }

  /** No member access, static access, offset or call follows where `AccessAt` does not hold. */
  lemma NoAccess(g: RuleName -> RuleDef<RuleName>, toks: seq<Token>, q: nat, f: nat)
    requires VariableTable(g) && q <= |toks| && f >= 1 && !AccessAt(toks, q)
    ensures Match(g, VariableDef().body.items[1], toks, q, f) == Matched(q, [])
  {
    var accesses := VariableDef().body.items[1].body;
    assert RefusesSeq(g, ObjectMemberAccessDef().body.items, toks, q, f - 1);
    assert RefusesSeq(g, ClassMemberAccessDef().body.items, toks, q, f - 1);
    assert RefusesSeq(g, DimensionalOffsetDef().body.items, toks, q, f - 1);
    assert RefusesSeq(g, FunctionCallParameterListDef().body.items, toks, q, f - 1);
    assert forall j :: 0 <= j < 4 ==> Refuses(g, accesses.alternatives[j], toks, q, f);
    ChoiceRefuses(g, accesses.alternatives, toks, q, f);
    RefusedLoop(g, accesses, toks, q, f);
  }

  /** Of the forms a variable may begin with, a `$name` token is a variable without member accesses. */
  lemma VariableHeadMatch(g: RuleName -> RuleDef<RuleName>, toks: seq<Token>, pos: nat, f: nat)
    requires NameTable(g) && VariableTable(g) && pos + 1 <= |toks| && f >= 4
    requires toks[pos].kind == VarIdentifier && !AccessAt(toks, pos + 1)
    ensures MatchFirst(g, VariableDef().body.items[0].alternatives, toks, pos, f)
         == Matched(pos + 1, VariableNode(toks[pos]).children)
  {
    ClassNameRefuses(g, toks, pos, f);
    var heads := VariableDef().body.items[0].alternatives;
    assert Refuses(g, heads[0], toks, pos, f);
    FirstSkipsRefused(g, heads, toks, pos, f, 2);
    PlainVariableMatch(g, toks, pos, f);
  }

  /** A `$name` token not followed by an access is a variable. */
  lemma VariableMatch(g: RuleName -> RuleDef<RuleName>, toks: seq<Token>, pos: nat, f: nat)
    requires NameTable(g) && VariableTable(g) && pos + 1 <= |toks| && f >= 5
    requires toks[pos].kind == VarIdentifier && !AccessAt(toks, pos + 1)
    ensures Match(g, Ref(Variable), toks, pos, f) == Matched(pos + 1, [VariableNode(toks[pos])])
  {
    VariableHeadMatch(g, toks, pos, f - 1);
    NoAccess(g, toks, pos + 1, f - 1);
    var items := VariableDef().body.items;
    assert MatchSeq(g, items[1..], toks, pos + 1, f - 1) == Matched(pos + 1, []);
    assert MatchSeq(g, items, toks, pos, f - 1) == Matched(pos + 1, VariableNode(toks[pos]).children);
  }

  /** A plain variable, as the tree holds it once it has climbed to the unary level. */
  function VariablePostfixNode(t: Token): Node<RuleName> {
    Inner(PostfixExpr, [VariableNode(t)])
  }

  /** A `$name` token followed by neither an access nor a postfix operator is a postfix expression holding the variable. */
  lemma VariablePostfix(g: RuleName -> RuleDef<RuleName>, toks: seq<Token>, pos: nat, f: nat)
    requires OperandTable(g) && pos + 1 <= |toks| && f >= 7
    requires toks[pos].kind == VarIdentifier && !ScalarWord(toks[pos].value)
    requires !AccessAt(toks, pos + 1) && !PostfixAt(toks, pos + 1)
    ensures Match(g, Ref(PostfixExpr), toks, pos, f) == Matched(pos + 1, [VariablePostfixNode(toks[pos])])
  {
    ScalarFormsRefuse(g, toks, pos, f - 1);
    CommonScalarRefuses(g, toks, pos, f - 1);
    var heads := PostfixExprDef().body.items[0].alternatives;
    FirstSkipsRefused(g, heads, toks, pos, f - 1, 3);
    VariableMatch(g, toks, pos, f - 1);
    assert MatchFirst(g, heads[3..], toks, pos, f - 1) == Matched(pos + 1, [VariableNode(toks[pos])]);
    PostfixOfHead(g, toks, pos, pos + 1, [VariableNode(toks[pos])], f);
  }

  /**
   * An operand that no prefix operator precedes and no operator of the
   * levels from `i` on follows passes from the postfix level up to level `i`
   * unchanged.
   */
  lemma PostfixClimbs(g: RuleName -> RuleDef<RuleName>, i: nat, toks: seq<Token>, pos: nat, q: nat, n: Node<RuleName>, f: nat)
    requires ChainTable(g) && g(UnaryExpr) == UnaryExprDef() && g(CastType) == CastTypeDef() && i <= 12 && pos <= |toks| && f >= 14 - i
    requires Match(g, Ref(PostfixExpr), toks, pos, f - (12 - i) - 1) == Matched(q, [n])
    requires !UnaryPrefixAt(toks, pos)
    requires forall k :: i <= k < 12 ==> !OperatorAt(k, toks, q)
    ensures Match(g, Ref(Chain[i]), toks, pos, f) == Matched(q, [n])
  {
    UnaryOfPostfix(g, toks, pos, q, n, f - (12 - i));
    Climb(g, i, 12, toks, pos, q, n, f);
  }

  /** Without a `?` after its operand, the conditional is that operand, collapsed. */
  lemma ConditionalPlain(g: RuleName -> RuleDef<RuleName>, toks: seq<Token>, pos: nat, q: nat, n: Node<RuleName>, f: nat)
    requires g(ConditionalExpr) == ConditionalExprDef() && pos <= |toks| && f >= 1
    requires Match(g, Ref(LogicalOrExpr), toks, pos, f - 1) == Matched(q, [n])
    requires !(q < |toks| && toks[q].kind == Punct(Query))
    ensures Match(g, Ref(ConditionalExpr), toks, pos, f) == Matched(q, [n])
  {
    var items := ConditionalExprDef().body.items;
    RefusedOptional(g, items[1].body, toks, q, f - 1);
    assert MatchSeq(g, items[1..], toks, q, f - 1) == Matched(q, []);
    assert MatchSeq(g, items, toks, pos, f - 1) == Matched(q, [n]);
  }

  /** The end of the conditional: `:` and the last operand. */
  lemma TernaryEnd(g: RuleName -> RuleDef<RuleName>, toks: seq<Token>, c: nat, e: nat, m: Node<RuleName>, f: nat)
    requires c < |toks| && toks[c].kind == Punct(Colon)
    requires Match(g, Ref(AssignmentExpr), toks, c + 1, f) == Matched(e, [m])
    ensures MatchSeq(g, ConditionalExprDef().body.items[1].body.items[2..], toks, c, f) == Matched(e, [Leaf(toks[c]), m])
  {
    var tail := ConditionalExprDef().body.items[1].body.items;
    assert MatchSeq(g, tail[3..], toks, c + 1, f) == Matched(e, [m]);
  }

  /** The part of the conditional after its operand: `?`, an optional middle operand, `:` and the last operand. */
  lemma TernaryTail(g: RuleName -> RuleDef<RuleName>, toks: seq<Token>, q: nat,
                    c: nat, middle: seq<Node<RuleName>>, e: nat, m: Node<RuleName>, f: nat)
    requires q < |toks| && toks[q].kind == Punct(Query)
    requires Match(g, Optional(Ref(AssignmentExpr)), toks, q + 1, f) == Matched(c, middle)
    requires c < |toks| && toks[c].kind == Punct(Colon)
    requires Match(g, Ref(AssignmentExpr), toks, c + 1, f) == Matched(e, [m])
    ensures Match(g, ConditionalExprDef().body.items[1], toks, q, f)
         == Matched(e, [Leaf(toks[q])] + middle + [Leaf(toks[c]), m])
  {
    var tail := ConditionalExprDef().body.items[1].body.items;
    TernaryTailItems(g, tail, toks, q, c, middle, e, m, f);
    OptionalTaken(g, Seq(tail), toks, q, f, e, [Leaf(toks[q])] + middle + [Leaf(toks[c]), m]);
  }

  lemma TernaryTailItems(g: RuleName -> RuleDef<RuleName>, tail: seq<E>, toks: seq<Token>, q: nat,
                         c: nat, middle: seq<Node<RuleName>>, e: nat, m: Node<RuleName>, f: nat)
    requires tail == ConditionalExprDef().body.items[1].body.items
    requires q < |toks| && toks[q].kind == Punct(Query)
    requires Match(g, Optional(Ref(AssignmentExpr)), toks, q + 1, f) == Matched(c, middle)
    requires c < |toks| && toks[c].kind == Punct(Colon)
    requires Match(g, Ref(AssignmentExpr), toks, c + 1, f) == Matched(e, [m])
    ensures MatchSeq(g, tail, toks, q, f) == Matched(e, [Leaf(toks[q])] + middle + [Leaf(toks[c]), m])
  {
    TernaryEnd(g, toks, c, e, m, f);
    assert tail[1..][1..] == tail[2..];
    SeqStep(g, tail[1..], toks, q + 1, c, middle, e, [Leaf(toks[c]), m], f);
    SeqStep(g, tail, toks, q, q + 1, [Leaf(toks[q])], e, middle + [Leaf(toks[c]), m], f);
    assert [Leaf(toks[q])] + (middle + [Leaf(toks[c]), m]) == [Leaf(toks[q])] + middle + [Leaf(toks[c]), m];
  }

  /**
   * `a ? b : c` and `a ? : c`: after the operand and `?`, an optional middle
   * operand, `:` and the last operand; the conditional keeps its node with the
   * two punctuators as leaves, and no node stands for an omitted middle.
   */
  lemma ConditionalTernary(g: RuleName -> RuleDef<RuleName>, toks: seq<Token>, pos: nat, q: nat, n: Node<RuleName>,
                           c: nat, middle: seq<Node<RuleName>>, e: nat, m: Node<RuleName>, f: nat)
    requires g(ConditionalExpr) == ConditionalExprDef() && pos <= |toks| && f >= 1
    requires Match(g, Ref(LogicalOrExpr), toks, pos, f - 1) == Matched(q, [n])
    requires q < |toks| && toks[q].kind == Punct(Query)
    requires Match(g, Optional(Ref(AssignmentExpr)), toks, q + 1, f - 1) == Matched(c, middle)
    requires c < |toks| && toks[c].kind == Punct(Colon)
    requires Match(g, Ref(AssignmentExpr), toks, c + 1, f - 1) == Matched(e, [m])
    ensures Match(g, Ref(ConditionalExpr), toks, pos, f)
         == Matched(e, [Inner(ConditionalExpr, [n, Leaf(toks[q])] + middle + [Leaf(toks[c]), m])])
  {
    var items := ConditionalExprDef().body.items;
    var rest := [Leaf(toks[q])] + middle + [Leaf(toks[c]), m];
    TernaryTail(g, toks, q, c, middle, e, m, f - 1);
    assert MatchSeq(g, items[1..], toks, q, f - 1) == Matched(e, rest);
    assert MatchSeq(g, items, toks, pos, f - 1) == Matched(e, [n] + rest);
    assert [n] + rest == [n, Leaf(toks[q])] + middle + [Leaf(toks[c]), m];
  }

  /** A `:` where the middle operand would stand leaves the middle out. */
  lemma MiddleOmitted(g: RuleName -> RuleDef<RuleName>, toks: seq<Token>, c: nat, f: nat)
    requires ExpressionTable(g) && c < |toks| && toks[c].kind == Punct(Colon) && !ScalarWord(toks[c].value) && f >= 21
    ensures Match(g, Optional(Ref(AssignmentExpr)), toks, c, f) == Matched(c, [])
  {
    ExpressionRefuses(g, toks, c, f + 1);
    RefusedOptional(g, Ref(AssignmentExpr), toks, c, f);
  }

  /** A compound assignment operator (`*=`, `/=`, `%=`, `+=`, `-=`, `<<=`, `>>=`, `.=`) stands at `q`. */
  predicate CompoundAssignmentAt(toks: seq<Token>, q: nat) {
    q < |toks| && toks[q].kind in {Punct(StarEqu), Punct(DivEqual), Punct(ModEqu), Punct(PlusEqu), Punct(MinusEqu),
      Punct(SlEqu), Punct(SrEqu), Punct(ConcatEqual)}
  }

  /** A bitwise assignment operator (`&=`, `^=`, `|=`) stands at `q`. */
  predicate LogicalAssignmentAt(toks: seq<Token>, q: nat) {
    q < |toks| && toks[q].kind in {Punct(AndEqual), Punct(XorEqu), Punct(OrEqu)}
  }

  /** An assignment operator stands at `q`: `=`, a compound assignment or a bitwise assignment. */
  predicate AssignmentOperatorAt(toks: seq<Token>, q: nat) {
    (q < |toks| && toks[q].kind == Punct(Equ)) || CompoundAssignmentAt(toks, q) || LogicalAssignmentAt(toks, q)
  }

  /**
   * The assignment-operator rule fails where no assignment operator stands,
   * and takes a plain `=` as a node holding the token.
   */
  lemma AssignmentOperatorMatch(g: RuleName -> RuleDef<RuleName>, toks: seq<Token>, q: nat, f: nat)
    requires AssignmentTable(g) && q <= |toks| && f >= 2
    ensures !AssignmentOperatorAt(toks, q) ==> Match(g, Ref(AssignmentOperator), toks, q, f) == NoMatch
    ensures q < |toks| && toks[q].kind == Punct(Equ) ==>
      Match(g, Ref(AssignmentOperator), toks, q, f) == Matched(q + 1, [Inner(AssignmentOperator, [Leaf(toks[q])])])
  {
    if !AssignmentOperatorAt(toks, q) {
      NoAssignmentOperator(g, toks, q, f);
    } else if toks[q].kind == Punct(Equ) {
      assert MatchFirst(g, AssignmentOperatorDef().body.alternatives, toks, q, f - 1) == Matched(q + 1, [Leaf(toks[q])]);
    }
  }

  /** Where no assignment operator stands, the assignment-operator rule refuses the token. */
  lemma NoAssignmentOperator(g: RuleName -> RuleDef<RuleName>, toks: seq<Token>, q: nat, f: nat)
    requires g(AssignmentOperator) == AssignmentOperatorDef() && g(CompoundAssignment) == CompoundAssignmentDef()
    requires g(LogicalAssignment) == LogicalAssignmentDef()
    requires q <= |toks| && f >= 2 && !AssignmentOperatorAt(toks, q)
    ensures Match(g, Ref(AssignmentOperator), toks, q, f) == NoMatch
  {
    CompoundAssignmentRefuses(g, toks, q, f - 1);
    LogicalAssignmentRefuses(g, toks, q, f - 1);
    var alts := AssignmentOperatorDef().body.alternatives;
    ChoiceRefuses(g, alts, toks, q, f - 1);
    RefusedFails(g, Ref(AssignmentOperator), toks, q, f);
  }

  lemma CompoundAssignmentRefuses(g: RuleName -> RuleDef<RuleName>, toks: seq<Token>, q: nat, f: nat)
    requires g(CompoundAssignment) == CompoundAssignmentDef() && f >= 1 && !CompoundAssignmentAt(toks, q)
    ensures Refuses(g, Ref(CompoundAssignment), toks, q, f)
  {
    var alts := CompoundAssignmentDef().body.alternatives;
    forall j | 0 <= j < |alts|
      ensures Refuses(g, alts[j], toks, q, f - 1)
    {
      assert alts[j].Term? && alts[j].terminal.OfKind?;
    }
    ChoiceRefuses(g, alts, toks, q, f - 1);
  }

  lemma LogicalAssignmentRefuses(g: RuleName -> RuleDef<RuleName>, toks: seq<Token>, q: nat, f: nat)
    requires g(LogicalAssignment) == LogicalAssignmentDef() && f >= 1 && !LogicalAssignmentAt(toks, q)
    ensures Refuses(g, Ref(LogicalAssignment), toks, q, f)
  {
    ChoiceRefuses(g, LogicalAssignmentDef().body.alternatives, toks, q, f - 1);
  }

  /**
   * The first alternative of the assignment, `variable = & …`, is tried first
   * and fails unless a variable is followed by `=` and `&`.
   */
  lemma ReferenceAssignmentFails(g: RuleName -> RuleDef<RuleName>, toks: seq<Token>, pos: nat, f: nat)
    requires NameTable(g) && VariableTable(g) && pos <= |toks| && f >= 5
    requires !(pos < |toks| && VariableStartKind(toks[pos].kind))
    ensures Match(g, AssignmentExprDef().body.alternatives[0], toks, pos, f) == NoMatch
  {
    VariableRefuses(g, toks, pos, f);
    RefusedFails(g, AssignmentExprDef().body.alternatives[0], toks, pos, f);
  }

  /** The same, for a variable that is followed by `=` but not by `&`. */
  lemma ReferenceAssignmentFailsAfterVariable(g: RuleName -> RuleDef<RuleName>, toks: seq<Token>, pos: nat, q: nat,
                                              vs: seq<Node<RuleName>>, f: nat)
    requires pos <= |toks|
    requires Match(g, Ref(Variable), toks, pos, f) == Matched(q, vs)
    requires !(q + 1 < |toks| && toks[q].kind == Punct(Equ) && toks[q + 1].kind == Punct(Punctuator.And))
    ensures Match(g, AssignmentExprDef().body.alternatives[0], toks, pos, f) == NoMatch
  {
    var items := AssignmentExprDef().body.alternatives[0].items;
    if q < |toks| && toks[q].kind == Punct(Equ) {
      assert MatchSeq(g, items[2..], toks, q + 1, f) == NoMatch;
      assert MatchSeq(g, items[1..], toks, q, f) == NoMatch;
    } else {
      assert MatchSeq(g, items[1..], toks, q, f) == NoMatch;
    }
  }

  /**
   * Without an assignment operator after it, the assignment is the
   * conditional: the second alternative fails at the missing operator and the
   * third matches the conditional again; the lone child collapses.
   */
  lemma AssignmentOfConditional(g: RuleName -> RuleDef<RuleName>, toks: seq<Token>, pos: nat, q: nat, n: Node<RuleName>, f: nat)
    requires AssignmentTable(g) && pos <= |toks| && f >= 3
    requires Match(g, AssignmentExprDef().body.alternatives[0], toks, pos, f - 1) == NoMatch
    requires Match(g, Ref(ConditionalExpr), toks, pos, f - 1) == Matched(q, [n])
    requires !AssignmentOperatorAt(toks, q)
    ensures Match(g, Ref(AssignmentExpr), toks, pos, f) == Matched(q, [n])
  {
    NoAssignmentOperator(g, toks, q, f - 1);
    var alts := AssignmentExprDef().body.alternatives;
    SeqFailsAtSecond(g, alts[1].items, toks, pos, q, [n], f - 1);
    ChoiceTakes(g, AssignmentExpr, alts, 2, toks, pos, f, q, [n]);
  }

  /** After the left operand of an assignment: `=` and an assignment again. */
  lemma AssignmentTail(g: RuleName -> RuleDef<RuleName>, toks: seq<Token>, q: nat, e: nat, m: Node<RuleName>, f: nat)
    requires AssignmentTable(g) && q < |toks| && toks[q].kind == Punct(Equ) && f >= 2
    requires Match(g, Ref(AssignmentExpr), toks, q + 1, f) == Matched(e, [m])
    ensures MatchSeq(g, AssignmentExprDef().body.alternatives[1].items[1..], toks, q, f)
         == Matched(e, [Inner(AssignmentOperator, [Leaf(toks[q])]), m])
  {
    AssignmentOperatorMatch(g, toks, q, f);
    var items := AssignmentExprDef().body.alternatives[1].items;
    assert MatchSeq(g, items[2..], toks, q + 1, f) == Matched(e, [m]);
  }

  /**
   * `a = b`: the conditional, `=`, and an assignment again (so `a = b = c`
   * nests to the right); the node keeps its three children.
   */
  lemma AssignmentOfEquals(g: RuleName -> RuleDef<RuleName>, toks: seq<Token>, pos: nat, q: nat, n: Node<RuleName>,
                           e: nat, m: Node<RuleName>, f: nat)
    requires AssignmentTable(g) && pos <= |toks| && f >= 3
    requires Match(g, AssignmentExprDef().body.alternatives[0], toks, pos, f - 1) == NoMatch
    requires Match(g, Ref(ConditionalExpr), toks, pos, f - 1) == Matched(q, [n])
    requires q < |toks| && toks[q].kind == Punct(Equ)
    requires Match(g, Ref(AssignmentExpr), toks, q + 1, f - 1) == Matched(e, [m])
    ensures Match(g, Ref(AssignmentExpr), toks, pos, f)
         == Matched(e, [Inner(AssignmentExpr, [n, Inner(AssignmentOperator, [Leaf(toks[q])]), m])])
  {
    AssignmentTail(g, toks, q, e, m, f - 1);
    var alts := AssignmentExprDef().body.alternatives;
    var op := Inner(AssignmentOperator, [Leaf(toks[q])]);
    assert Match(g, alts[1], toks, pos, f - 1) == Matched(e, [n, op, m]);
    assert MatchFirst(g, alts[1..], toks, pos, f - 1) == Matched(e, [n, op, m]);
    assert MatchFirst(g, alts, toks, pos, f - 1) == Matched(e, [n, op, m]);
  }

  /** The expression rule keeps a node of its own around the assignment it holds. */
  lemma ExpressionOfAssignment(g: RuleName -> RuleDef<RuleName>, toks: seq<Token>, pos: nat, e: nat, n: Node<RuleName>, f: nat)
    requires g(Expression) == ExpressionDef() && pos <= |toks| && f >= 1
    requires Match(g, Ref(AssignmentExpr), toks, pos, f - 1) == Matched(e, [n])
    ensures Match(g, Ref(Expression), toks, pos, f) == Matched(e, [Inner(Expression, [n])])
  {
  }

  /**
   * An operand of the logical-or level followed by neither `?` nor an
   * assignment operator is the whole expression: conditional and assignment
   * collapse, and only the expression node is added around it.
   */
  lemma ExpressionOfOr(g: RuleName -> RuleDef<RuleName>, toks: seq<Token>, pos: nat, q: nat, n: Node<RuleName>, f: nat)
    requires AssignmentTable(g) && pos <= |toks| && f >= 4
    requires Match(g, AssignmentExprDef().body.alternatives[0], toks, pos, f - 2) == NoMatch
    requires Match(g, Ref(LogicalOrExpr), toks, pos, f - 3) == Matched(q, [n])
    requires !(q < |toks| && toks[q].kind == Punct(Query)) && !AssignmentOperatorAt(toks, q)
    ensures Match(g, Ref(Expression), toks, pos, f) == Matched(q, [Inner(Expression, [n])])
  {
    ConditionalPlain(g, toks, pos, q, n, f - 2);
    AssignmentOfConditional(g, toks, pos, q, n, f - 1);
    ExpressionOfAssignment(g, toks, pos, q, n, f);
  }

  /**
   * A postfix operand with no operator of any kind after it is a whole
   * assignment on its own: every level of the chain, the conditional and the
   * assignment collapse into it.
   */
  lemma AssignmentOfOperand(g: RuleName -> RuleDef<RuleName>, toks: seq<Token>, pos: nat, q: nat, n: Node<RuleName>, f: nat)
    requires ChainTable(g) && PrimaryTable(g) && AssignmentTable(g) && pos <= |toks| && f >= 16
    requires Match(g, AssignmentExprDef().body.alternatives[0], toks, pos, f - 1) == NoMatch
    requires Match(g, Ref(PostfixExpr), toks, pos, f - 15) == Matched(q, [n])
    requires !UnaryPrefixAt(toks, pos) && forall k :: 0 <= k < 12 ==> !OperatorAt(k, toks, q)
    requires !(q < |toks| && toks[q].kind == Punct(Query)) && !AssignmentOperatorAt(toks, q)
    ensures Match(g, Ref(AssignmentExpr), toks, pos, f) == Matched(q, [n])
  {
    PostfixClimbs(g, 0, toks, pos, q, n, f - 2);
    ConditionalPlain(g, toks, pos, q, n, f - 1);
    AssignmentOfConditional(g, toks, pos, q, n, f);
  }

  /**
   * Each operator token belongs to exactly one level of the chain, and none
   * of them extends a postfix expression, accesses a member, or is `?` or an
   * assignment operator.
   */
  lemma OperatorLevelUnique(toks: seq<Token>, q: nat, i: nat)
    requires i < 12 && OperatorAt(i, toks, q)
    ensures forall k :: 0 <= k < 12 && k != i ==> !OperatorAt(k, toks, q)
    ensures !PostfixAt(toks, q) && !AccessAt(toks, q)
    ensures toks[q].kind != Punct(Query) && !AssignmentOperatorAt(toks, q)
  {
  }

  /** A token that closes an expression (or the end of the input) continues none of its forms. */
  lemma ExpressionEndAt(toks: seq<Token>, q: nat)
    requires q < |toks| ==> toks[q].kind in {Eof, Punct(Semicolon), Punct(Comma), Punct(RParenthesis), Punct(RBracket)}
    ensures forall k :: 0 <= k < 12 ==> !OperatorAt(k, toks, q)
    ensures !PostfixAt(toks, q) && !AccessAt(toks, q)
    ensures !(q < |toks| && toks[q].kind == Punct(Query)) && !AssignmentOperatorAt(toks, q)
  {
  }

  /** `=`, `?` and `:` are not operators of the chain, and continue no postfix expression. */
  lemma NonChainPunctuatorAt(toks: seq<Token>, q: nat)
    requires q < |toks| && toks[q].kind in {Punct(Equ), Punct(Query), Punct(Colon)}
    ensures forall k :: 0 <= k < 12 ==> !OperatorAt(k, toks, q)
    ensures !PostfixAt(toks, q) && !AccessAt(toks, q)
  {
  }

  /**
   * A number followed by nothing that binds tighter than level `i` is, at
   * level `i`, the postfix node of the number.
   */
  lemma NumberClimbs(g: RuleName -> RuleDef<RuleName>, i: nat, toks: seq<Token>, pos: nat, f: nat)
    requires ChainTable(g) && ScalarTable(g) && PrimaryTable(g) && i <= 12 && pos + 1 < |toks| && f >= 17 - i
    requires toks[pos].kind == NumericLiteral && !PostfixAt(toks, pos + 1)
    requires forall k :: i <= k < 12 ==> toks[pos + 1].kind !in OperatorKinds[k]
    ensures Match(g, Ref(Chain[i]), toks, pos, f) == Matched(pos + 1, [NumberNode(toks[pos])])
  {
    NumberPostfix(g, toks, pos, f - (12 - i) - 1);
    PostfixClimbs(g, i, toks, pos, pos + 1, NumberNode(toks[pos]), f);
  }

  /**
   * One operator of level `i` between two operands of the next level, and no
   * third operand: a node of level `i` with the left operand, the operator and
   * the right operand as its children.
   */
  lemma BinaryPair(g: RuleName -> RuleDef<RuleName>, i: nat, toks: seq<Token>, pos: nat, q: nat, a: Node<RuleName>,
                   e: nat, b: Node<RuleName>, f: nat)
    requires ChainTable(g) && i < 12 && pos <= |toks| && f >= 2
    requires Match(g, Ref(Chain[i + 1]), toks, pos, f - 1) == Matched(q, [a])
    requires OperatorAt(i, toks, q)
    requires Match(g, Ref(Chain[i + 1]), toks, q + 1, f - 1) == Matched(e, [b])
    requires !OperatorAt(i, toks, e)
    ensures Match(g, Ref(Chain[i]), toks, pos, f) == Matched(e, [Inner(Chain[i], [a] + OperatorNodes(i, toks[q]) + [b])])
  {
    LoopEnd(g, i, toks, e, f - 1);
    LoopMore(g, i, toks, q, e, b, e, [], f - 1);
    LevelFrom(g, i, toks, pos, q, a, e, OperatorNodes(i, toks[q]) + [b], f);
    assert [a] + (OperatorNodes(i, toks[q]) + [b]) == [a] + OperatorNodes(i, toks[q]) + [b];
  }
}
