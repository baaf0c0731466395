/**
 * What the statement rules of the PHP grammar parse, and into which tree: the
 * end-of-statement rule that leaves no node of its own, the statements that
 * cannot begin at a token, the two forms of `if` that the ordered choice of
 * STATEMENT tells apart, and the compilation unit around them.
 *
 * As for the expressions, every statement is about any rule table that
 * agrees with the grammar on the rules involved, and about the grammar's own
 * table `Definition` in particular.
 */
module PhpStatements {
  import opened Tokens
  import opened Peg
  import opened PhpGrammar
  import opened PhpExpressions

  /** The statement rule, the rule of each of its alternatives, and EOS. */
  predicate StatementTable(g: RuleName -> RuleDef<RuleName>) {
    && g(Statement) == StatementDef() && g(Block) == BlockDef() && g(Label) == LabelDef()
    && g(AlternativeIfStatement) == AlternativeIfStatementDef() && g(ThrowStatement) == ThrowStatementDef()
    && g(IfStatement) == IfStatementDef() && g(WhileStatement) == WhileStatementDef()
    && g(DoWhileStatement) == DoWhileStatementDef() && g(ForeachStatement) == ForeachStatementDef()
    && g(ForStatement) == ForStatementDef() && g(SwitchStatement) == SwitchStatementDef()
    && g(BreakStatement) == BreakStatementDef() && g(ContinueStatement) == ContinueStatementDef()
    && g(ReturnStatement) == ReturnStatementDef() && g(EmptyStatement) == EmptyStatementDef()
    && g(YieldStatement) == YieldStatementDef() && g(YieldExpression) == YieldExpressionDef()
    && g(GlobalStatement) == GlobalStatementDef() && g(StaticStatement) == StaticStatementDef()
    && g(EchoStatement) == EchoStatementDef() && g(TryStatement) == TryStatementDef()
    && g(DeclareStatement) == DeclareStatementDef() && g(GotoStatement) == GotoStatementDef()
    && g(UnsetVariableStatement) == UnsetVariableStatementDef()
    && g(ExpressionStatement) == ExpressionStatementDef() && g(Eos) == EosDef()
  }

  /** The `elseif` and `else` clauses of both forms of `if`. */
  predicate ClauseTable(g: RuleName -> RuleDef<RuleName>) {
    && g(ElseifList) == ElseifListDef() && g(ElseifClause) == ElseifClauseDef() && g(ElseClause) == ElseClauseDef()
    && g(AlternativeElseifList) == AlternativeElseifListDef()
    && g(AlternativeElseifClause) == AlternativeElseifClauseDef()
    && g(AlternativeElseClause) == AlternativeElseClauseDef()
  }

  /** The statement lists, the declarations that may stand among statements, and the compilation unit. */
  predicate DeclarationTable(g: RuleName -> RuleDef<RuleName>) {
    && g(InnerStatementList) == InnerStatementListDef() && g(FunctionDeclaration) == FunctionDeclarationDef()
    && g(ClassDeclaration) == ClassDeclarationDef() && g(ClassEntryType) == ClassEntryTypeDef()
    && g(ClassType) == ClassTypeDef() && g(InterfaceDeclaration) == InterfaceDeclarationDef()
    && g(HaltCompilerStatement) == HaltCompilerStatementDef()
    && g(TopStatementList) == TopStatementListDef() && g(TopStatement) == TopStatementDef()
    && g(NamespaceStatement) == NamespaceStatementDef() && g(UseStatement) == UseStatementDef()
    && g(UseFunctionDeclarationStatement) == UseFunctionDeclarationStatementDef()
    && g(ConstantDeclaration) == ConstantDeclarationDef() && g(CompilationUnit) == CompilationUnitDef()
  }

  /** Everything the statement proofs rely on. */
  predicate ProgramTable(g: RuleName -> RuleDef<RuleName>) {
    ExpressionTable(g) && StatementTable(g) && ClauseTable(g) && DeclarationTable(g)
  }

  /** The grammar's own table has the rules the statement proofs rely on. */
  lemma DefinitionProgramTable()
    ensures ProgramTable(Definition)
  {
    DefinitionExpressionTable();
    DefinitionStatementTable();
    DefinitionClauseTable();
    DefinitionDeclarationTable();
  }

  lemma DefinitionStatementTable() ensures StatementTable(Definition) {}
  lemma DefinitionClauseTable() ensures ClauseTable(Definition) {}
  lemma DefinitionDeclarationTable() ensures DeclarationTable(Definition) {}

  /**
   * EOS is `;` or an inline-HTML token (text after a closing tag ends a
   * statement too). The rule is skipped: the token's leaf goes straight to
   * the enclosing node.
   */
  lemma EosMatch(g: RuleName -> RuleDef<RuleName>, toks: seq<Token>, pos: nat, f: nat)
    requires g(Eos) == EosDef() && pos <= |toks| && f >= 1
    ensures Match(g, Ref(Eos), toks, pos, f) ==
      if pos < |toks| && toks[pos].kind in {Punct(Semicolon), InlineHtml} then Matched(pos + 1, [Leaf(toks[pos])])
      else NoMatch
  {
    FirstOfKinds(g, EosDef().body.alternatives, toks, pos, f - 1);
  }

  /** The token types that begin a statement other than an expression statement. */
  predicate StatementKeywordKind(k: TokenKind) {
    k in {Punct(LCurlyBrace), Identifier, Kw(If), Kw(Throw), Kw(While), Kw(Do), Kw(Foreach), Kw(For), Kw(Switch),
          Kw(Break), Kw(Continue), Kw(Return), Punct(Semicolon), Kw(Yield), Kw(Global), Kw(Static), Kw(Echo),
          Kw(Try), Kw(Declare), Kw(Goto), InlineHtml, Kw(Unset)}
  }

  /** The token at `pos` can begin a statement. */
  predicate StatementStartAt(toks: seq<Token>, pos: nat) {
    ExpressionStartAt(toks, pos) || (pos < |toks| && StatementKeywordKind(toks[pos].kind))
  }

  /** The token types that begin a declaration allowed among statements. */
  predicate DeclarationKind(k: TokenKind) {
    k in {Kw(Function), Kw(Abstract), Kw(Final), Kw(Class), Kw(Trait), Kw(Interface), Kw(HaltCompiler)}
  }

  /** The token at `pos` can begin an entry of a statement list. */
  predicate InnerStatementStartAt(toks: seq<Token>, pos: nat) {
    StatementStartAt(toks, pos) || (pos < |toks| && DeclarationKind(toks[pos].kind))
  }

  /** The token at `pos` can begin an entry of the top-level statement list. */
  predicate TopStatementStartAt(toks: seq<Token>, pos: nat) {
    InnerStatementStartAt(toks, pos) || (pos < |toks| && toks[pos].kind in {Kw(Keyword.Namespace), Kw(Use), Kw(Const)})
  }

  /** A rule whose body is a sequence refuses a token that the first item of the sequence refuses. */
  lemma SeqRuleRefuses(g: RuleName -> RuleDef<RuleName>, x: RuleName, items: seq<E>, toks: seq<Token>, pos: nat, f: nat)
    requires f >= 1 && g(x) == Rule(Seq(items)) && items != [] && Refuses(g, items[0], toks, pos, f - 1)
    ensures Refuses(g, Ref(x), toks, pos, f)
  {
    assert RefusesSeq(g, items, toks, pos, f - 1);
  }

  /** The block, the label and the statements up to `while` each begin with their own token. */
  lemma BlockAndIfFormsRefuse(g: RuleName -> RuleDef<RuleName>, toks: seq<Token>, pos: nat, f: nat)
    requires StatementTable(g) && pos <= |toks| && f >= 1
    requires !(pos < |toks| && StatementKeywordKind(toks[pos].kind))
    ensures forall j :: 0 <= j < 6 ==> Refuses(g, StatementDef().body.alternatives[j], toks, pos, f)
  {
    SeqRuleRefuses(g, Block, BlockDef().body.items, toks, pos, f);
    SeqRuleRefuses(g, Label, LabelDef().body.items, toks, pos, f);
    SeqRuleRefuses(g, AlternativeIfStatement, AlternativeIfStatementDef().body.items, toks, pos, f);
    SeqRuleRefuses(g, ThrowStatement, ThrowStatementDef().body.items, toks, pos, f);
    SeqRuleRefuses(g, IfStatement, IfStatementDef().body.items, toks, pos, f);
    SeqRuleRefuses(g, WhileStatement, WhileStatementDef().body.items, toks, pos, f);
  }

  /** So do the loops, `switch` and the jumps. */
  lemma LoopAndJumpFormsRefuse(g: RuleName -> RuleDef<RuleName>, toks: seq<Token>, pos: nat, f: nat)
    requires StatementTable(g) && pos <= |toks| && f >= 1
    requires !(pos < |toks| && StatementKeywordKind(toks[pos].kind))
    ensures forall j :: 6 <= j < 12 ==> Refuses(g, StatementDef().body.alternatives[j], toks, pos, f)
  {
    SeqRuleRefuses(g, DoWhileStatement, DoWhileStatementDef().body.items, toks, pos, f);
    SeqRuleRefuses(g, ForeachStatement, ForeachStatementDef().body.items, toks, pos, f);
    SeqRuleRefuses(g, ForStatement, ForStatementDef().body.items, toks, pos, f);
    SeqRuleRefuses(g, SwitchStatement, SwitchStatementDef().body.items, toks, pos, f);
    SeqRuleRefuses(g, BreakStatement, BreakStatementDef().body.items, toks, pos, f);
    SeqRuleRefuses(g, ContinueStatement, ContinueStatementDef().body.items, toks, pos, f);
  }

  /** So do `return`, the empty statement, `yield` (through its expression), `global`, `static` and `echo`. */
  lemma SimpleFormsRefuse(g: RuleName -> RuleDef<RuleName>, toks: seq<Token>, pos: nat, f: nat)
    requires StatementTable(g) && pos <= |toks| && f >= 2
    requires !(pos < |toks| && StatementKeywordKind(toks[pos].kind))
    ensures forall j :: 12 <= j < 18 ==> Refuses(g, StatementDef().body.alternatives[j], toks, pos, f)
  {
    SeqRuleRefuses(g, ReturnStatement, ReturnStatementDef().body.items, toks, pos, f);
    assert Refuses(g, Ref(EmptyStatement), toks, pos, f);
    SeqRuleRefuses(g, YieldExpression, YieldExpressionDef().body.items, toks, pos, f - 1);
    SeqRuleRefuses(g, YieldStatement, YieldStatementDef().body.items, toks, pos, f);
    SeqRuleRefuses(g, GlobalStatement, GlobalStatementDef().body.items, toks, pos, f);
    SeqRuleRefuses(g, StaticStatement, StaticStatementDef().body.items, toks, pos, f);
    SeqRuleRefuses(g, EchoStatement, EchoStatementDef().body.items, toks, pos, f);
  }

  /** So do `try`, `declare`, `goto`, inline HTML and `unset`. */
  lemma TrailingFormsRefuse(g: RuleName -> RuleDef<RuleName>, toks: seq<Token>, pos: nat, f: nat)
    requires StatementTable(g) && pos <= |toks| && f >= 1
    requires !(pos < |toks| && StatementKeywordKind(toks[pos].kind))
    ensures forall j :: 18 <= j < 23 ==> Refuses(g, StatementDef().body.alternatives[j], toks, pos, f)
  {
    SeqRuleRefuses(g, TryStatement, TryStatementDef().body.items, toks, pos, f);
    SeqRuleRefuses(g, DeclareStatement, DeclareStatementDef().body.items, toks, pos, f);
    SeqRuleRefuses(g, GotoStatement, GotoStatementDef().body.items, toks, pos, f);
    assert Refuses(g, StatementDef().body.alternatives[21], toks, pos, f);
    SeqRuleRefuses(g, UnsetVariableStatement, UnsetVariableStatementDef().body.items, toks, pos, f);
  }

  /** An expression statement begins as its expression does. */
  lemma ExpressionStatementRefuses(g: RuleName -> RuleDef<RuleName>, toks: seq<Token>, pos: nat, f: nat)
    requires ExpressionTable(g) && g(ExpressionStatement) == ExpressionStatementDef()
    requires pos <= |toks| && f >= 23 && !ExpressionStartAt(toks, pos)
    ensures Refuses(g, Ref(ExpressionStatement), toks, pos, f)
  {
    ExpressionRefuses(g, toks, pos, f - 1);
    SeqRuleRefuses(g, ExpressionStatement, ExpressionStatementDef().body.items, toks, pos, f);
  }

  /**
   * A statement begins with a token that `StatementStartAt` admits: at any
   * other token (a `}`, an `endif`, the end of the file) every form of
   * statement refuses, and so does the statement rule, so a statement list
   * stops there.
   */
  lemma StatementRefuses(g: RuleName -> RuleDef<RuleName>, toks: seq<Token>, pos: nat, f: nat)
    requires ExpressionTable(g) && StatementTable(g) && pos <= |toks| && f >= 24 && !StatementStartAt(toks, pos)
    ensures Refuses(g, Ref(Statement), toks, pos, f)
  {
    StatementFormsRefuse(g, toks, pos, f - 1);
    ChoiceRefuses(g, StatementDef().body.alternatives, toks, pos, f - 1);
  }

  lemma StatementFormsRefuse(g: RuleName -> RuleDef<RuleName>, toks: seq<Token>, pos: nat, f: nat)
    requires ExpressionTable(g) && StatementTable(g) && pos <= |toks| && f >= 23 && !StatementStartAt(toks, pos)
    ensures forall j :: 0 <= j < 24 ==> Refuses(g, StatementDef().body.alternatives[j], toks, pos, f)
  {
    BlockAndIfFormsRefuse(g, toks, pos, f);
    LoopAndJumpFormsRefuse(g, toks, pos, f);
    SimpleFormsRefuse(g, toks, pos, f);
    TrailingFormsRefuse(g, toks, pos, f);
    ExpressionStatementRefuses(g, toks, pos, f);
  }

  /**
   * A declaration allowed among statements begins with `function`, a class
   * modifier, `class`, `trait`, `interface` or `__halt_compiler`.
   */
  lemma DeclarationsRefuse(g: RuleName -> RuleDef<RuleName>, toks: seq<Token>, pos: nat, f: nat)
    requires DeclarationTable(g) && pos <= |toks| && f >= 3
    requires !(pos < |toks| && DeclarationKind(toks[pos].kind))
    ensures Refuses(g, Ref(FunctionDeclaration), toks, pos, f)
    ensures Refuses(g, Ref(ClassDeclaration), toks, pos, f)
    ensures Refuses(g, Ref(InterfaceDeclaration), toks, pos, f)
    ensures Refuses(g, Ref(HaltCompilerStatement), toks, pos, f)
  {
    SeqRuleRefuses(g, FunctionDeclaration, FunctionDeclarationDef().body.items, toks, pos, f);
    ChoiceRefuses(g, ClassTypeDef().body.alternatives, toks, pos, f - 3);
    var entry := ClassEntryTypeDef().body.alternatives;
    assert RefusesSeq(g, entry[0].items[1..], toks, pos, f - 2);
    assert RefusesSeq(g, entry[0].items, toks, pos, f - 2);
    ChoiceRefuses(g, entry, toks, pos, f - 2);
    SeqRuleRefuses(g, ClassDeclaration, ClassDeclarationDef().body.items, toks, pos, f);
    SeqRuleRefuses(g, InterfaceDeclaration, InterfaceDeclarationDef().body.items, toks, pos, f);
    SeqRuleRefuses(g, HaltCompilerStatement, HaltCompilerStatementDef().body.items, toks, pos, f);
  }

  /** A statement list (of a block or of an alternative form) cannot begin where no entry of it can. */
  lemma InnerStatementListRefuses(g: RuleName -> RuleDef<RuleName>, toks: seq<Token>, pos: nat, f: nat)
    requires ExpressionTable(g) && StatementTable(g) && DeclarationTable(g) && pos <= |toks| && f >= 25
    requires !InnerStatementStartAt(toks, pos)
    ensures Refuses(g, Ref(InnerStatementList), toks, pos, f)
  {
    StatementRefuses(g, toks, pos, f - 1);
    DeclarationsRefuse(g, toks, pos, f - 1);
    InnerEntryRefuses(g, toks, pos, f - 1);
  }

  /** An entry of a statement list refuses where a statement and each declaration refuse. */
  lemma InnerEntryRefuses(g: RuleName -> RuleDef<RuleName>, toks: seq<Token>, pos: nat, f: nat)
    requires g(InnerStatementList) == InnerStatementListDef()
    requires Refuses(g, Ref(FunctionDeclaration), toks, pos, f) && Refuses(g, Ref(ClassDeclaration), toks, pos, f)
    requires Refuses(g, Ref(InterfaceDeclaration), toks, pos, f)
    requires Refuses(g, Ref(HaltCompilerStatement), toks, pos, f) && Refuses(g, Ref(Statement), toks, pos, f)
    ensures Refuses(g, Ref(InnerStatementList), toks, pos, f + 1)
  {
    var entry := InnerStatementListDef().body.body;
    ChoiceRefuses(g, entry.alternatives, toks, pos, f);
    assert Refuses(g, OneOrMore(entry), toks, pos, f);
  }

  /** The declarations of the top level begin with their own keywords too. */
  lemma TopDeclarationsRefuse(g: RuleName -> RuleDef<RuleName>, toks: seq<Token>, pos: nat, f: nat)
    requires DeclarationTable(g) && pos <= |toks| && f >= 3
    requires !(pos < |toks| && (DeclarationKind(toks[pos].kind) || toks[pos].kind in {Kw(Keyword.Namespace), Kw(Use), Kw(Const)}))
    ensures forall j :: 0 <= j < 8 ==> Refuses(g, TopStatementDef().body.alternatives[j], toks, pos, f)
  {
    DeclarationsRefuse(g, toks, pos, f);
    var ns := NamespaceStatementDef().body.alternatives;
    assert RefusesSeq(g, ns[0].items, toks, pos, f - 1);
    assert RefusesSeq(g, ns[1].items, toks, pos, f - 1);
    ChoiceRefuses(g, ns, toks, pos, f - 1);
    assert Refuses(g, Ref(NamespaceStatement), toks, pos, f);
    SeqRuleRefuses(g, UseStatement, UseStatementDef().body.items, toks, pos, f);
    SeqRuleRefuses(g, UseFunctionDeclarationStatement, UseFunctionDeclarationStatementDef().body.items, toks, pos, f);
    SeqRuleRefuses(g, ConstantDeclaration, ConstantDeclarationDef().body.items, toks, pos, f);
  }

  /** The top-level statement list cannot begin where no entry of it can (at the end of the file, say). */
  lemma TopStatementRefuses(g: RuleName -> RuleDef<RuleName>, toks: seq<Token>, pos: nat, f: nat)
    requires ExpressionTable(g) && StatementTable(g) && DeclarationTable(g) && pos <= |toks| && f >= 25
    requires !TopStatementStartAt(toks, pos)
    ensures Refuses(g, Ref(TopStatement), toks, pos, f)
  {
    StatementRefuses(g, toks, pos, f - 1);
    TopDeclarationsRefuse(g, toks, pos, f - 1);
    ChoiceRefuses(g, TopStatementDef().body.alternatives, toks, pos, f - 1);
  }

  /**
   * The tokens that close a statement list (`}`, `endif`, `elseif`, `else`
   * and the end of the file) begin no entry of any statement list.
   */
  lemma ClosingTokenAt(toks: seq<Token>, pos: nat)
    requires pos < |toks| ==> toks[pos].kind in {Punct(RCurlyBrace), Kw(Endif), Kw(Elseif), Kw(Else), Eof}
    requires pos < |toks| ==> !ScalarWord(toks[pos].value)
    ensures !TopStatementStartAt(toks, pos) && !InnerStatementStartAt(toks, pos) && !StatementStartAt(toks, pos)
  {
  }

  /** A number followed by a token that closes an expression is a whole expression. */
  lemma NumberExpression(g: RuleName -> RuleDef<RuleName>, toks: seq<Token>, pos: nat, f: nat)
    requires ExpressionTable(g) && pos < |toks| && f >= 19 && toks[pos].kind == NumericLiteral
    requires pos + 1 < |toks| ==>
      toks[pos + 1].kind in {Eof, Punct(Semicolon), Punct(Comma), Punct(RParenthesis), Punct(RBracket)}
    ensures Match(g, Ref(Expression), toks, pos, f) == Matched(pos + 1, [Inner(Expression, [NumberNode(toks[pos])])])
  {
    NumberIsAssignment(g, toks, pos, f - 1);
    ExpressionOfAssignment(g, toks, pos, pos + 1, NumberNode(toks[pos]), f);
  }

  /** The same number, at the assignment level, where it stands alone. */
  lemma NumberIsAssignment(g: RuleName -> RuleDef<RuleName>, toks: seq<Token>, pos: nat, f: nat)
    requires ExpressionTable(g) && pos < |toks| && f >= 18 && toks[pos].kind == NumericLiteral
    requires pos + 1 < |toks| ==>
      toks[pos + 1].kind in {Eof, Punct(Semicolon), Punct(Comma), Punct(RParenthesis), Punct(RBracket)}
    ensures Match(g, Ref(AssignmentExpr), toks, pos, f) == Matched(pos + 1, [NumberNode(toks[pos])])
  {
    ExpressionEndAt(toks, pos + 1);
    NumberPostfix(g, toks, pos, f - 15);
    ReferenceAssignmentFails(g, toks, pos, f - 1);
    AssignmentOfOperand(g, toks, pos, pos + 1, NumberNode(toks[pos]), f);
  }

  /** The tree of the condition `( n )` of an `if`. */
  function ConditionNode(toks: seq<Token>, pos: nat): Node<RuleName>
    requires pos + 2 < |toks|
  {
    Inner(ParenthesisExpression, [Leaf(toks[pos]), Inner(Expression, [NumberNode(toks[pos + 1])]), Leaf(toks[pos + 2])])
  }

  /**
   * `( e )` is a parenthesised expression holding the expression, when `e`
   * does not begin with `yield`: the yield form is tried first.
   */
  lemma ParenthesisedExpression(g: RuleName -> RuleDef<RuleName>, toks: seq<Token>, pos: nat, q: nat, n: Node<RuleName>,
                                f: nat)
    requires g(ParenthesisExpression) == ParenthesisExpressionDef() && g(YieldExpression) == YieldExpressionDef()
    requires pos + 1 < |toks| && f >= 2
    requires toks[pos].kind == Punct(LParenthesis) && toks[pos + 1].kind != Kw(Yield)
    requires Match(g, Ref(Expression), toks, pos + 1, f - 1) == Matched(q, [n])
    requires q < |toks| && toks[q].kind == Punct(RParenthesis)
    ensures Match(g, Ref(ParenthesisExpression), toks, pos, f)
         == Matched(q + 1, [Inner(ParenthesisExpression, [Leaf(toks[pos]), n, Leaf(toks[q])])])
  {
    NoYieldExpression(g, toks, pos + 1, f - 1);
    var items := ParenthesisExpressionDef().body.items;
    ExpressionNotYield(g, items[1].alternatives, toks, pos + 1, q, n, f - 1);
    SeqOfThree(g, items, toks, pos, pos + 1, q, q + 1, q + 1, [Leaf(toks[pos])], [n], [Leaf(toks[q])], [], f - 1);
    assert [Leaf(toks[pos])] + ([n] + ([Leaf(toks[q])] + [])) == [Leaf(toks[pos]), n, Leaf(toks[q])];
    RuleOfSeq(g, ParenthesisExpression, items, toks, pos, f, q + 1, [Leaf(toks[pos]), n, Leaf(toks[q])]);
  }

  /** A `yield` expression needs the `yield` keyword. */
  lemma NoYieldExpression(g: RuleName -> RuleDef<RuleName>, toks: seq<Token>, p: nat, f: nat)
    requires g(YieldExpression) == YieldExpressionDef() && p < |toks| && toks[p].kind != Kw(Yield) && f >= 1
    ensures Match(g, Ref(YieldExpression), toks, p, f) == NoMatch
  {
    SeqRuleRefuses(g, YieldExpression, YieldExpressionDef().body.items, toks, p, f);
    RefusedFails(g, Ref(YieldExpression), toks, p, f);
  }

  /** Between the parentheses, where no `yield` expression matches, the choice takes the expression. */
  lemma ExpressionNotYield(g: RuleName -> RuleDef<RuleName>, alts: seq<E>, toks: seq<Token>, p: nat, q: nat,
                           n: Node<RuleName>, f: nat)
    requires alts == [Ref(YieldExpression), Ref(Expression)] && p <= |toks|
    requires Match(g, Ref(YieldExpression), toks, p, f) == NoMatch
    requires Match(g, Ref(Expression), toks, p, f) == Matched(q, [n])
    ensures Match(g, FirstOf(alts), toks, p, f) == Matched(q, [n])
  {
    assert alts[1..][0] == Ref(Expression);
    assert MatchFirst(g, alts[1..], toks, p, f) == Matched(q, [n]);
    assert MatchFirst(g, alts, toks, p, f) == Matched(q, [n]);
  }

  /** `( n )` is a parenthesised expression holding the number. */
  lemma NumberCondition(g: RuleName -> RuleDef<RuleName>, toks: seq<Token>, pos: nat, f: nat)
    requires ExpressionTable(g) && g(YieldExpression) == YieldExpressionDef() && pos + 2 < |toks| && f >= 20
    requires toks[pos].kind == Punct(LParenthesis) && toks[pos + 1].kind == NumericLiteral
    requires toks[pos + 2].kind == Punct(RParenthesis)
    ensures Match(g, Ref(ParenthesisExpression), toks, pos, f) == Matched(pos + 3, [ConditionNode(toks, pos)])
  {
    NumberExpression(g, toks, pos + 1, f - 1);
    ParenthesisedExpression(g, toks, pos, pos + 2, Inner(Expression, [NumberNode(toks[pos + 1])]), f);
  }

  /**
   * The alternative form of `if` needs a `:` right after its condition:
   * without one it fails, and STATEMENT goes on to its later alternatives.
   */
  lemma AlternativeIfNeedsColon(g: RuleName -> RuleDef<RuleName>, toks: seq<Token>, pos: nat, q: nat,
                                cs: seq<Node<RuleName>>, f: nat)
    requires g(AlternativeIfStatement) == AlternativeIfStatementDef() && pos < |toks| && f >= 1
    requires Match(g, Ref(ParenthesisExpression), toks, pos + 1, f - 1) == Matched(q, cs)
    requires !(q < |toks| && toks[q].kind == Punct(Colon))
    ensures Match(g, Ref(AlternativeIfStatement), toks, pos, f) == NoMatch
  {
    var items := AlternativeIfStatementDef().body.items;
    if toks[pos].kind == Kw(If) {
      SeqFailsAtSecond(g, items[1..], toks, pos + 1, q, cs, f - 1);
      SeqFailsAfterFirst(g, items, toks, pos, pos + 1, [Leaf(toks[pos])], f - 1);
    }
    assert MatchSeq(g, items, toks, pos, f - 1) == NoMatch;
    RuleFails(g, AlternativeIfStatement, toks, pos, f);
  }

  /** Neither `elseif` nor `else` follows: the two optional clause lists of an `if` match nothing. */
  lemma IfClausesAbsent(g: RuleName -> RuleDef<RuleName>, toks: seq<Token>, e: nat, f: nat)
    requires ClauseTable(g) && e <= |toks| && f >= 3
    requires !(e < |toks| && toks[e].kind in {Kw(Elseif), Kw(Else)})
    ensures MatchSeq(g, IfStatementDef().body.items[3..], toks, e, f - 1) == Matched(e, [])
  {
    SeqRuleRefuses(g, ElseifClause, ElseifClauseDef().body.items, toks, e, f - 2);
    assert Refuses(g, Ref(ElseifList), toks, e, f - 1);
    RefusedOptional(g, Ref(ElseifList), toks, e, f - 1);
    SeqRuleRefuses(g, ElseClause, ElseClauseDef().body.items, toks, e, f - 1);
    RefusedOptional(g, Ref(ElseClause), toks, e, f - 1);
    var items := IfStatementDef().body.items;
    assert items[4..][1..] == [];
    SeqStep(g, items[4..], toks, e, e, [], e, [], f - 1);
    assert items[3..][1..] == items[4..];
    SeqStep(g, items[3..], toks, e, e, [], e, [], f - 1);
  }

  /** The items of an `if` in sequence: the keyword, the condition, the statement and no clauses. */
  lemma IfItemsMatch(g: RuleName -> RuleDef<RuleName>, toks: seq<Token>, pos: nat, q: nat, c: Node<RuleName>,
                     e: nat, s: Node<RuleName>, f: nat)
    requires pos < |toks| && toks[pos].kind == Kw(If) && f >= 3
    requires Match(g, Ref(ParenthesisExpression), toks, pos + 1, f - 1) == Matched(q, [c])
    requires Match(g, Ref(Statement), toks, q, f - 1) == Matched(e, [s])
    requires MatchSeq(g, IfStatementDef().body.items[3..], toks, e, f - 1) == Matched(e, [])
    ensures MatchSeq(g, IfStatementDef().body.items, toks, pos, f - 1) == Matched(e, [Leaf(toks[pos]), c, s])
  {
    SeqOfThree(g, IfStatementDef().body.items, toks, pos, pos + 1, q, e, e, [Leaf(toks[pos])], [c], [s], [], f - 1);
    assert [Leaf(toks[pos])] + ([c] + ([s] + [])) == [Leaf(toks[pos]), c, s];
  }

  /**
   * `if (c) s` with neither `elseif` nor `else` after the statement: an
   * IF_STATEMENT node with the keyword, the condition and the statement.
   */
  lemma IfStatementMatch(g: RuleName -> RuleDef<RuleName>, toks: seq<Token>, pos: nat, q: nat, c: Node<RuleName>,
                         e: nat, s: Node<RuleName>, f: nat)
    requires g(IfStatement) == IfStatementDef() && ClauseTable(g) && pos < |toks| && f >= 3
    requires toks[pos].kind == Kw(If)
    requires Match(g, Ref(ParenthesisExpression), toks, pos + 1, f - 1) == Matched(q, [c])
    requires Match(g, Ref(Statement), toks, q, f - 1) == Matched(e, [s])
    requires !(e < |toks| && toks[e].kind in {Kw(Elseif), Kw(Else)})
    ensures Match(g, Ref(IfStatement), toks, pos, f) == Matched(e, [Inner(IfStatement, [Leaf(toks[pos]), c, s])])
  {
    IfClausesAbsent(g, toks, e, f);
    IfItemsMatch(g, toks, pos, q, c, e, s, f);
    RuleOfSeq(g, IfStatement, IfStatementDef().body.items, toks, pos, f, e, [Leaf(toks[pos]), c, s]);
  }

  /** Neither a block nor a label begins with `if`. */
  lemma IfIsNoBlockOrLabel(g: RuleName -> RuleDef<RuleName>, toks: seq<Token>, pos: nat, f: nat)
    requires g(Block) == BlockDef() && g(Label) == LabelDef()
    requires pos < |toks| && toks[pos].kind == Kw(If) && f >= 1
    ensures Match(g, Ref(Block), toks, pos, f) == NoMatch
    ensures Match(g, Ref(Label), toks, pos, f) == NoMatch
  {
    SeqRuleRefuses(g, Block, BlockDef().body.items, toks, pos, f);
    SeqRuleRefuses(g, Label, LabelDef().body.items, toks, pos, f);
    RefusedFails(g, Ref(Block), toks, pos, f);
    RefusedFails(g, Ref(Label), toks, pos, f);
  }

  /**
   * At an `if` whose alternative form fails, STATEMENT passes over the
   * block, the label and `throw` (which refuse `if`) and takes IF_STATEMENT.
   */
  lemma StatementOfIf(g: RuleName -> RuleDef<RuleName>, toks: seq<Token>, pos: nat, e: nat, n: Node<RuleName>, f: nat)
    requires g(Statement) == StatementDef() && g(Block) == BlockDef() && g(Label) == LabelDef()
    requires g(ThrowStatement) == ThrowStatementDef()
    requires pos < |toks| && toks[pos].kind == Kw(If) && f >= 2
    requires Match(g, Ref(AlternativeIfStatement), toks, pos, f - 1) == NoMatch
    requires Match(g, Ref(IfStatement), toks, pos, f - 1) == Matched(e, [n])
    ensures Match(g, Ref(Statement), toks, pos, f) == Matched(e, [Inner(Statement, [n])])
  {
    IfPassesFirstFour(g, toks, pos, f - 1);
    ChoiceTakes(g, Statement, StatementDef().body.alternatives, 4, toks, pos, f, e, [n]);
  }

  /** At an `if` whose alternative form fails, the four alternatives of STATEMENT before IF_STATEMENT fail. */
  lemma IfPassesFirstFour(g: RuleName -> RuleDef<RuleName>, toks: seq<Token>, pos: nat, f: nat)
    requires g(Block) == BlockDef() && g(Label) == LabelDef() && g(ThrowStatement) == ThrowStatementDef()
    requires pos < |toks| && toks[pos].kind == Kw(If) && f >= 1
    requires Match(g, Ref(AlternativeIfStatement), toks, pos, f) == NoMatch
    ensures forall j :: 0 <= j < 4 ==> Match(g, StatementDef().body.alternatives[j], toks, pos, f) == NoMatch
  {
    IfIsNoBlockOrLabel(g, toks, pos, f);
    IfIsNoThrow(g, toks, pos, f);
    StatementHead();
    var head := StatementDef().body.alternatives[..5];
    assert forall j :: 0 <= j < 4 ==> StatementDef().body.alternatives[j] == head[j];
  }

  /** The first five alternatives of STATEMENT. */
  lemma StatementHead()
    ensures StatementDef().body.alternatives[..5]
         == [Ref(Block), Ref(Label), Ref(AlternativeIfStatement), Ref(ThrowStatement), Ref(IfStatement)]
  {
  }

  /** A `throw` statement does not begin with `if`. */
  lemma IfIsNoThrow(g: RuleName -> RuleDef<RuleName>, toks: seq<Token>, pos: nat, f: nat)
    requires g(ThrowStatement) == ThrowStatementDef()
    requires pos < |toks| && toks[pos].kind == Kw(If) && f >= 1
    ensures Match(g, Ref(ThrowStatement), toks, pos, f) == NoMatch
  {
    SeqRuleRefuses(g, ThrowStatement, ThrowStatementDef().body.items, toks, pos, f);
    RefusedFails(g, Ref(ThrowStatement), toks, pos, f);
  }

  /** At an `if` whose alternative form matches, STATEMENT takes it: it comes before IF_STATEMENT. */
  lemma StatementOfAlternativeIf(g: RuleName -> RuleDef<RuleName>, toks: seq<Token>, pos: nat, e: nat, n: Node<RuleName>,
                                 f: nat)
    requires g(Statement) == StatementDef() && g(Block) == BlockDef() && g(Label) == LabelDef()
    requires pos < |toks| && toks[pos].kind == Kw(If) && f >= 2
    requires Match(g, Ref(AlternativeIfStatement), toks, pos, f - 1) == Matched(e, [n])
    ensures Match(g, Ref(Statement), toks, pos, f) == Matched(e, [Inner(Statement, [n])])
  {
    IfIsNoBlockOrLabel(g, toks, pos, f - 1);
    ChoiceTakes(g, Statement, StatementDef().body.alternatives, 2, toks, pos, f, e, [n]);
  }

  /**
   * After the `:` of an alternative `if`, where no statement list can begin:
   * no `elseif` or `else` clause, then `endif` and the end of the statement.
   */
  lemma AlternativeIfEnd(g: RuleName -> RuleDef<RuleName>, toks: seq<Token>, p: nat, f: nat)
    requires ClauseTable(g) && g(Eos) == EosDef() && p + 1 < |toks| && f >= 3
    requires toks[p].kind == Kw(Endif) && toks[p + 1].kind in {Punct(Semicolon), InlineHtml}
    requires Refuses(g, Ref(InnerStatementList), toks, p, f - 1)
    ensures MatchSeq(g, AlternativeIfStatementDef().body.items[3..], toks, p, f - 1)
         == Matched(p + 2, [Leaf(toks[p]), Leaf(toks[p + 1])])
  {
    RefusedOptional(g, Ref(InnerStatementList), toks, p, f - 1);
    SeqRuleRefuses(g, AlternativeElseifClause, AlternativeElseifClauseDef().body.items, toks, p, f - 2);
    assert Refuses(g, Ref(AlternativeElseifList), toks, p, f - 1);
    RefusedOptional(g, Ref(AlternativeElseifList), toks, p, f - 1);
    SeqRuleRefuses(g, AlternativeElseClause, AlternativeElseClauseDef().body.items, toks, p, f - 1);
    RefusedOptional(g, Ref(AlternativeElseClause), toks, p, f - 1);
    EosMatch(g, toks, p + 1, f - 1);
    var items := AlternativeIfStatementDef().body.items[3..];
    assert items[3..][1..][1..] == [];
    SeqStep(g, items[3..][1..], toks, p + 1, p + 2, [Leaf(toks[p + 1])], p + 2, [], f - 1);
    SeqStep(g, items[3..], toks, p, p + 1, [Leaf(toks[p])], p + 2, [Leaf(toks[p + 1])], f - 1);
    var none: seq<Node<RuleName>> := [];
    SeqOfThree(g, items, toks, p, p, p, p, p + 2, none, none, none, [Leaf(toks[p]), Leaf(toks[p + 1])], f - 1);
    assert none + (none + (none + [Leaf(toks[p]), Leaf(toks[p + 1])])) == [Leaf(toks[p]), Leaf(toks[p + 1])];
  }

  /** The items of an alternative `if` with an empty body, in sequence. */
  lemma AlternativeIfItemsMatch(g: RuleName -> RuleDef<RuleName>, toks: seq<Token>, pos: nat, q: nat,
                                c: Node<RuleName>, f: nat)
    requires pos < |toks| && q + 2 < |toks| && f >= 3
    requires toks[pos].kind == Kw(If) && toks[q].kind == Punct(Colon)
    requires Match(g, Ref(ParenthesisExpression), toks, pos + 1, f - 1) == Matched(q, [c])
    requires MatchSeq(g, AlternativeIfStatementDef().body.items[3..], toks, q + 1, f - 1)
          == Matched(q + 3, [Leaf(toks[q + 1]), Leaf(toks[q + 2])])
    ensures MatchSeq(g, AlternativeIfStatementDef().body.items, toks, pos, f - 1)
         == Matched(q + 3, [Leaf(toks[pos]), c, Leaf(toks[q]), Leaf(toks[q + 1]), Leaf(toks[q + 2])])
  {
    var rest := [Leaf(toks[q + 1]), Leaf(toks[q + 2])];
    SeqOfThree(g, AlternativeIfStatementDef().body.items, toks, pos, pos + 1, q, q + 1, q + 3,
               [Leaf(toks[pos])], [c], [Leaf(toks[q])], rest, f - 1);
    assert [Leaf(toks[pos])] + ([c] + ([Leaf(toks[q])] + rest))
        == [Leaf(toks[pos]), c, Leaf(toks[q]), Leaf(toks[q + 1]), Leaf(toks[q + 2])];
  }

  /**
   * `if (c): endif;` with no statement between `:` and `endif`: an
   * ALTERNATIVE_IF_STATEMENT node with the keyword, the condition, the colon,
   * `endif` and the end of the statement.
   */
  lemma AlternativeIfMatch(g: RuleName -> RuleDef<RuleName>, toks: seq<Token>, pos: nat, q: nat, c: Node<RuleName>,
                           f: nat)
    requires g(AlternativeIfStatement) == AlternativeIfStatementDef() && ClauseTable(g) && g(Eos) == EosDef()
    requires pos < |toks| && q + 2 < |toks| && f >= 3
    requires toks[pos].kind == Kw(If) && toks[q].kind == Punct(Colon) && toks[q + 1].kind == Kw(Endif)
    requires toks[q + 2].kind in {Punct(Semicolon), InlineHtml}
    requires Match(g, Ref(ParenthesisExpression), toks, pos + 1, f - 1) == Matched(q, [c])
    requires Refuses(g, Ref(InnerStatementList), toks, q + 1, f - 1)
    ensures Match(g, Ref(AlternativeIfStatement), toks, pos, f)
         == Matched(q + 3, [Inner(AlternativeIfStatement,
                                  [Leaf(toks[pos]), c, Leaf(toks[q]), Leaf(toks[q + 1]), Leaf(toks[q + 2])])])
  {
    AlternativeIfEnd(g, toks, q + 1, f);
    AlternativeIfItemsMatch(g, toks, pos, q, c, f);
    RuleOfSeq(g, AlternativeIfStatement, AlternativeIfStatementDef().body.items, toks, pos, f, q + 3,
              [Leaf(toks[pos]), c, Leaf(toks[q]), Leaf(toks[q + 1]), Leaf(toks[q + 2])]);
  }

  /** `{ }`: where no statement list can begin after `{`, a block with its two braces and nothing between. */
  lemma EmptyBlock(g: RuleName -> RuleDef<RuleName>, toks: seq<Token>, pos: nat, f: nat)
    requires g(Block) == BlockDef() && pos + 1 < |toks| && f >= 1
    requires toks[pos].kind == Punct(LCurlyBrace) && toks[pos + 1].kind == Punct(RCurlyBrace)
    requires Refuses(g, Ref(InnerStatementList), toks, pos + 1, f - 1)
    ensures Match(g, Ref(Block), toks, pos, f) == Matched(pos + 2, [Inner(Block, [Leaf(toks[pos]), Leaf(toks[pos + 1])])])
  {
    RefusedOptional(g, Ref(InnerStatementList), toks, pos + 1, f - 1);
    var items := BlockDef().body.items;
    assert MatchSeq(g, items[2..], toks, pos + 1, f - 1) == Matched(pos + 2, [Leaf(toks[pos + 1])]);
    assert MatchSeq(g, items[1..], toks, pos + 1, f - 1) == Matched(pos + 2, [Leaf(toks[pos + 1])]);
    assert MatchSeq(g, items, toks, pos, f - 1) == Matched(pos + 2, [Leaf(toks[pos]), Leaf(toks[pos + 1])]);
  }

  /** A block is the first alternative of STATEMENT. */
  lemma StatementOfBlock(g: RuleName -> RuleDef<RuleName>, toks: seq<Token>, pos: nat, e: nat, n: Node<RuleName>, f: nat)
    requires g(Statement) == StatementDef() && pos <= |toks| && f >= 1
    requires Match(g, Ref(Block), toks, pos, f - 1) == Matched(e, [n])
    ensures Match(g, Ref(Statement), toks, pos, f) == Matched(e, [Inner(Statement, [n])])
  {
    assert MatchFirst(g, StatementDef().body.alternatives, toks, pos, f - 1) == Matched(e, [n]);
  }

  /**
   * A top-level statement that begins with none of the declaration keywords
   * is a STATEMENT wrapped in a TOP_STATEMENT node: the declarations are tried
   * first and all refuse.
   */
  lemma TopStatementOfStatement(g: RuleName -> RuleDef<RuleName>, toks: seq<Token>, pos: nat, e: nat,
                                n: Node<RuleName>, f: nat)
    requires DeclarationTable(g) && pos < |toks| && f >= 4
    requires !(DeclarationKind(toks[pos].kind) || toks[pos].kind in {Kw(Keyword.Namespace), Kw(Use), Kw(Const)})
    requires Match(g, Ref(Statement), toks, pos, f - 1) == Matched(e, [n])
    ensures Match(g, Ref(TopStatement), toks, pos, f) == Matched(e, [Inner(TopStatement, [n])])
  {
    var alts := TopStatementDef().body.alternatives;
    TopDeclarationsRefuse(g, toks, pos, f - 1);
    forall j | 0 <= j < 8 ensures Match(g, alts[j], toks, pos, f - 1) == NoMatch {
      RefusedFails(g, alts[j], toks, pos, f - 1);
    }
    ChoiceTakes(g, TopStatement, alts, 8, toks, pos, f, e, [n]);
  }

  /** A file must begin with its opening tag: anything else is no compilation unit. */
  lemma CompilationUnitNeedsOpeningTag(g: RuleName -> RuleDef<RuleName>, toks: seq<Token>, f: nat)
    requires g(CompilationUnit) == CompilationUnitDef() && f >= 1
    requires !(0 < |toks| && toks[0].kind == FileOpeningTag)
    ensures Match(g, Ref(CompilationUnit), toks, 0, f) == NoMatch
  {
    SeqRuleRefuses(g, CompilationUnit, CompilationUnitDef().body.items, toks, 0, f);
    RefusedFails(g, Ref(CompilationUnit), toks, 0, f);
  }

  /**
   * The opening tag, whatever the optional statement list matches, then the
   * end of the file: one COMPILATION_UNIT node holding all three.
   */
  lemma CompilationUnitMatch(g: RuleName -> RuleDef<RuleName>, toks: seq<Token>, p: nat, ns: seq<Node<RuleName>>,
                             f: nat)
    requires g(CompilationUnit) == CompilationUnitDef() && 0 < |toks| && p < |toks| && f >= 1
    requires toks[0].kind == FileOpeningTag && toks[p].kind == Eof
    requires Match(g, Optional(Ref(TopStatementList)), toks, 1, f - 1) == Matched(p, ns)
    ensures Match(g, Ref(CompilationUnit), toks, 0, f)
         == Matched(p + 1, [Inner(CompilationUnit, [Leaf(toks[0])] + ns + [Leaf(toks[p])])])
  {
    var items := CompilationUnitDef().body.items;
    var none: seq<Node<RuleName>> := [];
    assert items[3..] == [];
    SeqOfThree(g, items, toks, 0, 1, p, p + 1, p + 1, [Leaf(toks[0])], ns, [Leaf(toks[p])], none, f - 1);
    assert [Leaf(toks[0])] + (ns + ([Leaf(toks[p])] + none)) == [Leaf(toks[0])] + ns + [Leaf(toks[p])];
    RuleOfSeq(g, CompilationUnit, items, toks, 0, f, p + 1, [Leaf(toks[0])] + ns + [Leaf(toks[p])]);
  }
}
