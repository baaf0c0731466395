/**
 * Statements and files parsed by the grammar's rule table: the two forms of
 * `if`, the braced one and the one closed by `endif`, and the file with no
 * statement at all. Each is stated for every token sequence of the
 * given shape and holds at every fuel from a bound on.
 */
module PhpStatementExamples {
  import opened Tokens
  import opened Peg
  import opened PhpGrammar
  import opened PhpExpressions
  import opened PhpStatements

  /** A token of kind `k` whose text is none of the scalar words, as the text of `}`, `endif` or the file end is. */
  predicate Plain(t: Token, k: TokenKind) {
    t.kind == k && !ScalarWord(t.value)
  }

  /** `if ( n ) { }` at `pos`, followed by a token that is neither `elseif` nor `else`. */
  predicate BracedIfAt(toks: seq<Token>, pos: nat) {
    && pos + 6 < |toks| && toks[pos].kind == Kw(If) && toks[pos + 1].kind == Punct(LParenthesis)
    && toks[pos + 2].kind == NumericLiteral && toks[pos + 3].kind == Punct(RParenthesis)
    && toks[pos + 4].kind == Punct(LCurlyBrace) && Plain(toks[pos + 5], Punct(RCurlyBrace))
    && toks[pos + 6].kind !in {Kw(Elseif), Kw(Else)}
  }

  /** `if ( n ) : endif ;` at `pos`. */
  predicate AlternativeIfAt(toks: seq<Token>, pos: nat) {
    && pos + 6 < |toks| && toks[pos].kind == Kw(If) && toks[pos + 1].kind == Punct(LParenthesis)
    && toks[pos + 2].kind == NumericLiteral && toks[pos + 3].kind == Punct(RParenthesis)
    && toks[pos + 4].kind == Punct(Colon) && Plain(toks[pos + 5], Kw(Endif))
    && toks[pos + 6].kind == Punct(Semicolon)
  }

  /** The statement `if ( n ) { }`: an IF_STATEMENT whose statement is an empty block. */
  function BracedIfNode(toks: seq<Token>, pos: nat): Node<RuleName>
    requires pos + 5 < |toks|
  {
    Inner(Statement, [Inner(IfStatement, [Leaf(toks[pos]), ConditionNode(toks, pos + 1),
      Inner(Statement, [Inner(Block, [Leaf(toks[pos + 4]), Leaf(toks[pos + 5])])])])])
  }

  /** The statement `if ( n ) : endif ;`: an ALTERNATIVE_IF_STATEMENT, with the `;` of EOS as a plain leaf. */
  function AlternativeIfNode(toks: seq<Token>, pos: nat): Node<RuleName>
    requires pos + 6 < |toks|
  {
    Inner(Statement, [Inner(AlternativeIfStatement, [Leaf(toks[pos]), ConditionNode(toks, pos + 1),
      Leaf(toks[pos + 4]), Leaf(toks[pos + 5]), Leaf(toks[pos + 6])])])
  }

  /** `{ }` as a statement: a block with nothing between the braces. */
  lemma EmptyBlockStatement(g: RuleName -> RuleDef<RuleName>, toks: seq<Token>, pos: nat, f: nat)
    requires g(Statement) == StatementDef() && g(Block) == BlockDef() && pos + 1 < |toks| && f >= 2
    requires toks[pos].kind == Punct(LCurlyBrace) && toks[pos + 1].kind == Punct(RCurlyBrace)
    requires Refuses(g, Ref(InnerStatementList), toks, pos + 1, f - 2)
    ensures Match(g, Ref(Statement), toks, pos, f)
         == Matched(pos + 2, [Inner(Statement, [Inner(Block, [Leaf(toks[pos]), Leaf(toks[pos + 1])])])])
  {
    EmptyBlock(g, toks, pos, f - 1);
    StatementOfBlock(g, toks, pos, pos + 2, Inner(Block, [Leaf(toks[pos]), Leaf(toks[pos + 1])]), f);
  }

  /**
   * `if ( n ) { }` is a braced IF_STATEMENT: the alternative form is tried
   * first and fails at the `{`, where it needs a `:`.
   */
  lemma BracedIfFromParts(g: RuleName -> RuleDef<RuleName>, toks: seq<Token>, pos: nat, f: nat)
    requires StatementTable(g) && ClauseTable(g) && BracedIfAt(toks, pos) && f >= 4
    requires Match(g, Ref(ParenthesisExpression), toks, pos + 1, f - 2) == Matched(pos + 4, [ConditionNode(toks, pos + 1)])
    requires Refuses(g, Ref(InnerStatementList), toks, pos + 5, f - 4)
    ensures Match(g, Ref(Statement), toks, pos, f) == Matched(pos + 6, [BracedIfNode(toks, pos)])
  {
    var block := Inner(Statement, [Inner(Block, [Leaf(toks[pos + 4]), Leaf(toks[pos + 5])])]);
    AlternativeIfNeedsColon(g, toks, pos, pos + 4, [ConditionNode(toks, pos + 1)], f - 1);
    EmptyBlockStatement(g, toks, pos + 4, f - 2);
    IfStatementMatch(g, toks, pos, pos + 4, ConditionNode(toks, pos + 1), pos + 6, block, f - 1);
    StatementOfIf(g, toks, pos, pos + 6, BracedIfNode(toks, pos).children[0], f);
  }

  /** `if ( n ) : endif ;` is an ALTERNATIVE_IF_STATEMENT, not an IF_STATEMENT. */
  lemma AlternativeIfFromParts(g: RuleName -> RuleDef<RuleName>, toks: seq<Token>, pos: nat, f: nat)
    requires g(Statement) == StatementDef() && g(Block) == BlockDef() && g(Label) == LabelDef()
    requires g(AlternativeIfStatement) == AlternativeIfStatementDef() && ClauseTable(g) && g(Eos) == EosDef()
    requires AlternativeIfAt(toks, pos) && f >= 4
    requires Match(g, Ref(ParenthesisExpression), toks, pos + 1, f - 2) == Matched(pos + 4, [ConditionNode(toks, pos + 1)])
    requires Refuses(g, Ref(InnerStatementList), toks, pos + 5, f - 2)
    ensures Match(g, Ref(Statement), toks, pos, f) == Matched(pos + 7, [AlternativeIfNode(toks, pos)])
  {
    AlternativeIfMatch(g, toks, pos, pos + 4, ConditionNode(toks, pos + 1), f - 1);
    StatementOfAlternativeIf(g, toks, pos, pos + 7, AlternativeIfNode(toks, pos).children[0], f);
  }

  /** The condition `( n )` and the `}` of a braced `if`, parsed by the whole grammar. */
  lemma BracedIfParts(g: RuleName -> RuleDef<RuleName>, toks: seq<Token>, pos: nat, f: nat)
    requires ExpressionTable(g) && StatementTable(g) && DeclarationTable(g) && BracedIfAt(toks, pos) && f >= 29
    ensures Match(g, Ref(ParenthesisExpression), toks, pos + 1, f - 2) == Matched(pos + 4, [ConditionNode(toks, pos + 1)])
    ensures Refuses(g, Ref(InnerStatementList), toks, pos + 5, f - 4)
  {
    NumberCondition(g, toks, pos + 1, f - 2);
    ClosingTokenAt(toks, pos + 5);
    InnerStatementListRefuses(g, toks, pos + 5, f - 4);
  }

  /** The condition `( n )` of an alternative `if`, parsed by the whole grammar. */
  lemma AlternativeIfCondition(g: RuleName -> RuleDef<RuleName>, toks: seq<Token>, pos: nat, f: nat)
    requires ExpressionTable(g) && g(YieldExpression) == YieldExpressionDef() && AlternativeIfAt(toks, pos) && f >= 27
    ensures Match(g, Ref(ParenthesisExpression), toks, pos + 1, f - 2) == Matched(pos + 4, [ConditionNode(toks, pos + 1)])
  {
    NumberCondition(g, toks, pos + 1, f - 2);
  }

  /** No statement list begins at the `endif` of an alternative `if`. */
  lemma AlternativeIfBodyEmpty(g: RuleName -> RuleDef<RuleName>, toks: seq<Token>, pos: nat, f: nat)
    requires ExpressionTable(g) && StatementTable(g) && DeclarationTable(g) && AlternativeIfAt(toks, pos) && f >= 27
    ensures Refuses(g, Ref(InnerStatementList), toks, pos + 5, f - 2)
  {
    ClosingTokenAt(toks, pos + 5);
    InnerStatementListRefuses(g, toks, pos + 5, f - 2);
  }

  /** The alternative `if` with its condition and its empty body, parsed by the whole grammar. */
  lemma AlternativeIfStatementTree(g: RuleName -> RuleDef<RuleName>, toks: seq<Token>, pos: nat, f: nat)
    requires ExpressionTable(g) && StatementTable(g) && ClauseTable(g) && DeclarationTable(g)
    requires AlternativeIfAt(toks, pos) && f >= 27
    ensures Match(g, Ref(Statement), toks, pos, f) == Matched(pos + 7, [AlternativeIfNode(toks, pos)])
  {
    AlternativeIfCondition(g, toks, pos, f);
    AlternativeIfBodyEmpty(g, toks, pos, f);
    AlternativeIfFromParts(g, toks, pos, f);
  }

  /** The braced `if` with its condition and its empty block, parsed by the whole grammar. */
  lemma BracedIfStatement(g: RuleName -> RuleDef<RuleName>, toks: seq<Token>, pos: nat, f: nat)
    requires ExpressionTable(g) && StatementTable(g) && ClauseTable(g) && DeclarationTable(g)
    requires BracedIfAt(toks, pos) && f >= 29
    ensures Match(g, Ref(Statement), toks, pos, f) == Matched(pos + 6, [BracedIfNode(toks, pos)])
  {
    BracedIfParts(g, toks, pos, f);
    BracedIfFromParts(g, toks, pos, f);
  }

  /** No top-level statement begins at the end of the file. */
  lemma NothingAtEnd(g: RuleName -> RuleDef<RuleName>, toks: seq<Token>, pos: nat, f: nat)
    requires ExpressionTable(g) && StatementTable(g) && DeclarationTable(g) && pos < |toks| && f >= 25
    requires Plain(toks[pos], Eof)
    ensures Refuses(g, Ref(TopStatement), toks, pos, f)
  {
    ClosingTokenAt(toks, pos);
    TopStatementRefuses(g, toks, pos, f);
  }

  /** `<?php` and nothing else: a compilation unit with no statement list. */
  lemma EmptyFileTree(g: RuleName -> RuleDef<RuleName>, toks: seq<Token>, f: nat)
    requires ExpressionTable(g) && StatementTable(g) && DeclarationTable(g) && f >= 27
    requires |toks| == 2 && toks[0].kind == FileOpeningTag && Plain(toks[1], Eof)
    ensures Match(g, Ref(CompilationUnit), toks, 0, f) == Matched(2, [Inner(CompilationUnit, [Leaf(toks[0]), Leaf(toks[1])])])
  {
    NothingAtEnd(g, toks, 1, f - 2);
    assert Refuses(g, Ref(TopStatementList), toks, 1, f - 1);
    RefusedOptional(g, Ref(TopStatementList), toks, 1, f - 1);
    var none: seq<Node<RuleName>> := [];
    CompilationUnitMatch(g, toks, 1, none, f);
    assert [Leaf(toks[0])] + none + [Leaf(toks[1])] == [Leaf(toks[0]), Leaf(toks[1])];
  }

  /** The examples above, for the grammar's own rule table. */
  lemma StatementExamplesInGrammar(toks: seq<Token>, pos: nat, f: nat)
    requires f >= 29
    ensures BracedIfAt(toks, pos) ==>
      Match(Definition, Ref(Statement), toks, pos, f) == Matched(pos + 6, [BracedIfNode(toks, pos)])
    ensures AlternativeIfAt(toks, pos) ==>
      Match(Definition, Ref(Statement), toks, pos, f) == Matched(pos + 7, [AlternativeIfNode(toks, pos)])
    ensures |toks| == 2 && toks[0].kind == FileOpeningTag && Plain(toks[1], Eof) ==>
      Match(Definition, Ref(CompilationUnit), toks, 0, f)
        == Matched(2, [Inner(CompilationUnit, [Leaf(toks[0]), Leaf(toks[1])])])
  {
    DefinitionExpressionTable();
    DefinitionStatementTable();
    DefinitionClauseTable();
    DefinitionDeclarationTable();
    if BracedIfAt(toks, pos) {
      BracedIfStatement(Definition, toks, pos, f);
    }
    if AlternativeIfAt(toks, pos) {
      AlternativeIfStatementTree(Definition, toks, pos, f);
    }
    if |toks| == 2 && toks[0].kind == FileOpeningTag && Plain(toks[1], Eof) {
      EmptyFileTree(Definition, toks, f);
    }
  }
}
