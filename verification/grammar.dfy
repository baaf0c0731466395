/**
 * The PHP grammar: one parsing expression per rule, in the notation of the
 * engine in module Peg. `is(a)` is the expression `a` itself, `is(a, b, ...)`
 * and `sequence(a, b, ...)` a `Seq`, `optional(a, b)` and `zeroOrMore(a, b)`
 * the optional or repeated `Seq([a, b])`.
 *
 * The unary level, every binary level, the conditional and the assignment
 * collapse into their only child (`SkipIfOneChild`); the statement terminator
 * `Eos` never appears in the tree (`Skip`). Every other rule keeps its node.
 */
module PhpGrammar {
  import opened Tokens
  import opened Peg

  /** The grammar's rule names: every constant of the rule enumeration that is given a definition, by position. */
  newtype RuleName = r: int | 0 <= r < 163

  const CompilationUnit: RuleName := 0
  const ParenthesisExpression: RuleName := 1
  const YieldExpression: RuleName := 2
  const SimpleIndirectReference: RuleName := 3
  const ReferenceVariable: RuleName := 4
  const VariableWithoutObjects: RuleName := 5
  const CompoundVariable: RuleName := 6
  const ClassName: RuleName := 7
  const FunctionCallParameterList: RuleName := 8
  const ParameterListForCall: RuleName := 9
  const VariableName: RuleName := 10
  const DimensionalOffset: RuleName := 11
  const AliasVariable: RuleName := 12
  const Variable: RuleName := 13
  const ObjectMemberAccess: RuleName := 14
  const ClassMemberAccess: RuleName := 15
  const ObjectDimList: RuleName := 16
  const StaticScalar: RuleName := 17
  const CombinedScalarOffset: RuleName := 18
  const CombinedScalar: RuleName := 19
  const ArrayPairList: RuleName := 20
  const ArrayPair: RuleName := 21
  const CommonScalar: RuleName := 22
  const BooleanLiteral: RuleName := 23
  const CastType: RuleName := 24
  const PostfixExpr: RuleName := 25
  const FunctionExpression: RuleName := 26
  const LexicalVars: RuleName := 27
  const LexicalVarList: RuleName := 28
  const LexicalVar: RuleName := 29
  const ExitExpr: RuleName := 30
  const ListAssignmentExpr: RuleName := 31
  const ListExpr: RuleName := 32
  const AssignmentList: RuleName := 33
  const AssignmentListElement: RuleName := 34
  const InternalFunction: RuleName := 35
  const NewExpr: RuleName := 36
  const UnaryExpr: RuleName := 37
  const ConcatenationExpr: RuleName := 38
  const MultiplicativeExpr: RuleName := 39
  const MuliplicativeOperator: RuleName := 40
  const AdditiveExpr: RuleName := 41
  const AdditiveOperator: RuleName := 42
  const ShiftExpr: RuleName := 43
  const ShiftOperator: RuleName := 44
  const RelationalExpr: RuleName := 45
  const RelationalOperator: RuleName := 46
  const EqualityExpr: RuleName := 47
  const EqualityOperator: RuleName := 48
  const BitewiseAndExpr: RuleName := 49
  const BitewiseXorExpr: RuleName := 50
  const BitewiseOrExpr: RuleName := 51
  const LogicalAndExpr: RuleName := 52
  const LogicalAndOperator: RuleName := 53
  const LogicalXorExpr: RuleName := 54
  const LogicalOrExpr: RuleName := 55
  const LogicalOrOperator: RuleName := 56
  const ConditionalExpr: RuleName := 57
  const AssignmentExpr: RuleName := 58
  const AssignmentOperator: RuleName := 59
  const CompoundAssignment: RuleName := 60
  const LogicalAssignment: RuleName := 61
  const Expression: RuleName := 62
  const UseConstDeclarationStatement: RuleName := 63
  const UseFunctionDeclarationStatement: RuleName := 64
  const UseFunctionDeclarations: RuleName := 65
  const UseFunctionDeclaration: RuleName := 66
  const UseDeclarations: RuleName := 67
  const UseDeclaration: RuleName := 68
  const ClassDeclaration: RuleName := 69
  const ClassEntryType: RuleName := 70
  const ClassType: RuleName := 71
  const ExtendsFrom: RuleName := 72
  const ImplementsList: RuleName := 73
  const InterfaceList: RuleName := 74
  const FullyQualifiedClassName: RuleName := 75
  const InterfaceDeclaration: RuleName := 76
  const InterfaceExtendsList: RuleName := 77
  const ConstantDeclaration: RuleName := 78
  const ConstantVar: RuleName := 79
  const MethodDeclaration: RuleName := 80
  const MethodBody: RuleName := 81
  const ParameterList: RuleName := 82
  const Parameter: RuleName := 83
  const OptionalClassType: RuleName := 84
  const ClassVariableDeclaration: RuleName := 85
  const VariableDeclaration: RuleName := 86
  const VariableModifiers: RuleName := 87
  const ClassConstantDeclaration: RuleName := 88
  const MemberConstDeclaration: RuleName := 89
  const MemberModifier: RuleName := 90
  const TopStatementList: RuleName := 91
  const TopStatement: RuleName := 92
  const NamespaceName: RuleName := 93
  const UnqualifiedName: RuleName := 94
  const QualifiedName: RuleName := 95
  const FullyQualifiedName: RuleName := 96
  const NamespaceStatement: RuleName := 97
  const UseStatement: RuleName := 98
  const HaltCompilerStatement: RuleName := 99
  const Reference: RuleName := 100
  const FunctionDeclaration: RuleName := 101
  const Statement: RuleName := 102
  const Eos: RuleName := 103
  const EmptyStatement: RuleName := 104
  const Label: RuleName := 105
  const Block: RuleName := 106
  const IfStatement: RuleName := 107
  const ElseifList: RuleName := 108
  const ElseifClause: RuleName := 109
  const ElseClause: RuleName := 110
  const AlternativeIfStatement: RuleName := 111
  const AlternativeElseifList: RuleName := 112
  const AlternativeElseifClause: RuleName := 113
  const AlternativeElseClause: RuleName := 114
  const WhileStatement: RuleName := 115
  const AlternativeWhileStatement: RuleName := 116
  const DoWhileStatement: RuleName := 117
  const ForStatement: RuleName := 118
  const ForExrr: RuleName := 119
  const AlternativeForStatement: RuleName := 120
  const SwitchStatement: RuleName := 121
  const SwitchCaseList: RuleName := 122
  const CaseList: RuleName := 123
  const CaseClause: RuleName := 124
  const DefaultClause: RuleName := 125
  const CaseSepartor: RuleName := 126
  const BreakStatement: RuleName := 127
  const ContinueStatement: RuleName := 128
  const ReturnStatement: RuleName := 129
  const ExpressionStatement: RuleName := 130
  const ForeachStatement: RuleName := 131
  const ForeachExpr: RuleName := 132
  const ForeachVariable: RuleName := 133
  const AlternativeForeachStatement: RuleName := 134
  const DeclareStatement: RuleName := 135
  const DeclareList: RuleName := 136
  const AlternativeDeclareStatement: RuleName := 137
  const TryStatement: RuleName := 138
  const CatchStatement: RuleName := 139
  const FinallyStatement: RuleName := 140
  const ThrowStatement: RuleName := 141
  const GotoStatement: RuleName := 142
  const YieldStatement: RuleName := 143
  const GlobalStatement: RuleName := 144
  const GlobalVarList: RuleName := 145
  const GlobalVar: RuleName := 146
  const StaticStatement: RuleName := 147
  const StaticVarList: RuleName := 148
  const StaticVar: RuleName := 149
  const EchoStatement: RuleName := 150
  const UnsetVariableStatement: RuleName := 151
  const UnsetVariables: RuleName := 152
  const ClassStatement: RuleName := 153
  const TraitUseStatement: RuleName := 154
  const TraitAdaptations: RuleName := 155
  const TraitAdaptationStatement: RuleName := 156
  const TraitPrecedence: RuleName := 157
  const TraitAlias: RuleName := 158
  const TraitMethodReference: RuleName := 159
  const TraitMethodReferenceFullyQualified: RuleName := 160
  const InnerStatementList: RuleName := 161
  const Keywords: RuleName := 162

  type E = Expr<RuleName>

  /** A keyword, a punctuator, another token type, an exact token text. */
  function K(k: Keyword): E { Term(OfKind(Kw(k))) }
  function P(p: Punctuator): E { Term(OfKind(Punct(p))) }
  function T(k: TokenKind): E { Term(OfKind(k)) }
  function V(v: string): E { Term(OfValue(v)) }

  function Rule(e: E): RuleDef<RuleName> { RuleDef(e, Keep) }
  function Collapsing(e: E): RuleDef<RuleName> { RuleDef(e, SkipIfOneChild) }

  /** One alternative per keyword, in the order of the keyword enumeration. */
  function KeywordAlternatives(): (alts: seq<E>)
    ensures |alts| == |AllKeywords|
    ensures forall i :: 0 <= i < |alts| ==> alts[i] == K(AllKeywords[i])
  {
    seq(|AllKeywords|, i requires 0 <= i < |AllKeywords| => K(AllKeywords[i]))
  }

  /** A binary precedence level: an operand, then any number of operator-operand pairs. */
  function Level(operand: RuleName, operator: E): E {
    Seq([Ref(operand), ZeroOrMore(Seq([operator, Ref(operand)]))])
  }

  function CompilationUnitDef(): RuleDef<RuleName> {
    Rule(Seq([T(FileOpeningTag), Optional(Ref(TopStatementList)), T(Eof)]))
  }

  // Expressions
  function ParenthesisExpressionDef(): RuleDef<RuleName> {
    Rule(Seq([P(LParenthesis), FirstOf([Ref(YieldExpression), Ref(Expression)]), P(RParenthesis)]))
  }
  function YieldExpressionDef(): RuleDef<RuleName> {
    Rule(Seq([K(Yield), Ref(Expression), Optional(Seq([P(DoubleArrow), Ref(Expression)]))]))
  }
  function SimpleIndirectReferenceDef(): RuleDef<RuleName> {
    Rule(OneOrMore(P(Dolar)))
  }
  function ReferenceVariableDef(): RuleDef<RuleName> {
    Rule(Seq([Ref(CompoundVariable), ZeroOrMore(FirstOf([
      Ref(DimensionalOffset),
      Seq([P(LCurlyBrace), Ref(Expression), P(RCurlyBrace)])]))]))
  }
  function VariableWithoutObjectsDef(): RuleDef<RuleName> {
    Rule(Seq([Optional(Ref(SimpleIndirectReference)), Ref(ReferenceVariable)]))
  }
  function CompoundVariableDef(): RuleDef<RuleName> {
    Rule(FirstOf([
      T(VarIdentifier),
      Seq([P(DolarLCurly), Ref(Expression), P(RCurlyBrace)])]))
  }
  function ClassNameDef(): RuleDef<RuleName> {
    Rule(FirstOf([K(Static), Ref(FullyQualifiedClassName)]))
  }
  function FunctionCallParameterListDef(): RuleDef<RuleName> {
    Rule(Seq([P(LParenthesis),
      Optional(Seq([Ref(ParameterListForCall), ZeroOrMore(Seq([P(Comma), Ref(ParameterListForCall)]))])),
      P(RParenthesis)]))
  }
  function ParameterListForCallDef(): RuleDef<RuleName> {
    Rule(FirstOf([Ref(AliasVariable), Seq([Optional(P(Elipsis)), Ref(Expression)]), Ref(YieldExpression)]))
  }
  function VariableNameDef(): RuleDef<RuleName> {
    Rule(FirstOf([
      T(Identifier),
      Ref(Keywords),
      Seq([P(LCurlyBrace), Ref(Expression), P(RCurlyBrace)])]))
  }
  function DimensionalOffsetDef(): RuleDef<RuleName> {
    Rule(Seq([P(LBracket), Optional(Ref(Expression)), P(RBracket)]))
  }
  function AliasVariableDef(): RuleDef<RuleName> {
    Rule(Seq([P(Punctuator.And), Ref(Variable)]))
  }
  function VariableDef(): RuleDef<RuleName> {
    Rule(Seq([
      FirstOf([
        Seq([K(Namespace), Ref(FullyQualifiedName)]),
        Ref(ClassName),
        Ref(VariableWithoutObjects),
        T(Identifier)]),
      ZeroOrMore(FirstOf([
        Ref(ObjectMemberAccess),
        Ref(ClassMemberAccess),
        Ref(DimensionalOffset),
        Ref(FunctionCallParameterList)]))]))
  }
  function ObjectMemberAccessDef(): RuleDef<RuleName> {
    Rule(Seq([P(Arrow), FirstOf([Ref(VariableWithoutObjects), Ref(ObjectDimList), T(Identifier)])]))
  }
  function ClassMemberAccessDef(): RuleDef<RuleName> {
    Rule(Seq([P(DoubleColon), FirstOf([Ref(VariableWithoutObjects), T(Identifier), K(Class)])]))
  }
  function ObjectDimListDef(): RuleDef<RuleName> {
    Rule(Seq([Ref(VariableName), ZeroOrMore(FirstOf([
      Seq([P(LCurlyBrace), Ref(Expression), P(RCurlyBrace)]),
      Ref(DimensionalOffset)]))]))
  }
  function StaticScalarDef(): RuleDef<RuleName> {
    Rule(FirstOf([Ref(CombinedScalar), Ref(ConditionalExpr)]))
  }
  function CombinedScalarOffsetDef(): RuleDef<RuleName> {
    Rule(Seq([Ref(CombinedScalar), ZeroOrMore(Ref(DimensionalOffset))]))
  }
  function CombinedScalarDef(): RuleDef<RuleName> {
    Rule(FirstOf([
      Seq([K(Array), P(LParenthesis), Optional(Ref(ArrayPairList)), P(RParenthesis)]),
      Seq([P(LBracket), Optional(Ref(ArrayPairList)), P(RBracket)])]))
  }
  function ArrayPairListDef(): RuleDef<RuleName> {
    Rule(Seq([Ref(ArrayPair), ZeroOrMore(Seq([P(Comma), Ref(ArrayPair)])), Optional(P(Comma))]))
  }
  function ArrayPairDef(): RuleDef<RuleName> {
    Rule(FirstOf([
      Seq([Ref(Expression), Optional(Seq([P(DoubleArrow), FirstOf([Ref(AliasVariable), Ref(Expression)])]))]),
      Ref(AliasVariable)]))
  }
  function CommonScalarDef(): RuleDef<RuleName> {
    Rule(FirstOf([
      T(Heredoc), T(NumericLiteral), T(StringLiteral), Ref(BooleanLiteral),
      V("NULL"), V("__CLASS__"), V("__FILE__"), V("__DIR__"), V("__FUNCTION__"),
      V("__LINE__"), V("__METHOD__"), V("__NAMESPACE__"), V("__TRAIT__")]))
  }
  function BooleanLiteralDef(): RuleDef<RuleName> {
    Rule(FirstOf([V("TRUE"), V("FALSE")]))
  }
  function CastTypeDef(): RuleDef<RuleName> {
    Rule(Seq([P(LParenthesis),
      FirstOf([V("INTEGER"), V("INT"), V("DOUBLE"), V("FLOAT"), V("STRING"), K(Array),
               V("OBJECT"), V("BOOLEAN"), V("BOOL"), V("BINARY"), K(Unset)]),
      P(RParenthesis)]))
  }
  function PostfixExprDef(): RuleDef<RuleName> {
    Rule(Seq([
      FirstOf([
        Ref(CombinedScalarOffset), Ref(FunctionExpression), Ref(CommonScalar), Ref(Variable),
        Ref(NewExpr), Ref(ExitExpr), Ref(ListAssignmentExpr), Ref(ParenthesisExpression),
        Ref(InternalFunction)]),
      Optional(FirstOf([P(Inc), P(Dec), Seq([K(Instanceof), Ref(Variable)])]))]))
  }
  function FunctionExpressionDef(): RuleDef<RuleName> {
    Rule(Seq([Optional(K(Static)), K(Function), Optional(P(Punctuator.And)), P(LParenthesis),
      Optional(Ref(ParameterList)), P(RParenthesis), Optional(Ref(LexicalVars)), Ref(Block)]))
  }
  function LexicalVarsDef(): RuleDef<RuleName> {
    Rule(Seq([K(Use), P(LParenthesis), Ref(LexicalVarList), P(RParenthesis)]))
  }
  function LexicalVarListDef(): RuleDef<RuleName> {
    Rule(Seq([Ref(LexicalVar), ZeroOrMore(Seq([P(Comma), Ref(LexicalVar)]))]))
  }
  function LexicalVarDef(): RuleDef<RuleName> {
    Rule(Seq([Optional(P(Punctuator.And)), T(VarIdentifier)]))
  }
  function ExitExprDef(): RuleDef<RuleName> {
    Rule(Seq([FirstOf([K(Exit), K(Die)]),
      Optional(Seq([P(LParenthesis), Optional(Ref(Expression)), P(RParenthesis)]))]))
  }
  function ListAssignmentExprDef(): RuleDef<RuleName> {
    Rule(Seq([Ref(ListExpr), P(Equ), Ref(Expression)]))
  }
  function ListExprDef(): RuleDef<RuleName> {
    Rule(Seq([K(List), Optional(Seq([P(LParenthesis), Ref(AssignmentList), P(RParenthesis)]))]))
  }
  function AssignmentListDef(): RuleDef<RuleName> {
    Rule(Seq([Optional(Ref(AssignmentListElement)),
      ZeroOrMore(Seq([P(Comma), Optional(Ref(AssignmentListElement))]))]))
  }
  function AssignmentListElementDef(): RuleDef<RuleName> {
    Rule(FirstOf([Ref(Variable), Ref(ListAssignmentExpr)]))
  }
  function InternalFunctionDef(): RuleDef<RuleName> {
    Rule(FirstOf([
      Seq([K(Isset), P(LParenthesis), Ref(Expression), ZeroOrMore(Seq([P(Comma), Ref(Expression)])), P(RParenthesis)]),
      Seq([K(Empty), P(LParenthesis), Ref(Expression), P(RParenthesis)]),
      Seq([K(Include), Ref(Expression)]),
      Seq([K(IncludeOnce), Ref(Expression)]),
      Seq([K(Eval), P(LParenthesis), Ref(Expression), P(RParenthesis)]),
      Seq([K(Require), Ref(Expression)]),
      Seq([K(RequireOnce), Ref(Expression)]),
      Seq([K(Clone), Ref(Expression)]),
      Seq([K(Print), Ref(Expression)])]))
  }
  function NewExprDef(): RuleDef<RuleName> {
    Rule(Seq([K(New), Ref(Variable)]))
  }
  function UnaryExprDef(): RuleDef<RuleName> {
    Collapsing(FirstOf([
      Seq([FirstOf([P(Inc), P(Dec)]), Ref(PostfixExpr)]),
      Seq([FirstOf([P(Plus), P(Minus), P(Tilda), P(Bang)]), Ref(UnaryExpr)]),
      Seq([P(At), Ref(PostfixExpr)]),
      Seq([Ref(CastType), Ref(Expression)]),
      Ref(PostfixExpr)]))
  }
  function ConcatenationExprDef(): RuleDef<RuleName> { Collapsing(Level(UnaryExpr, P(Dot)))
  }
  function MultiplicativeExprDef(): RuleDef<RuleName> { Collapsing(Level(ConcatenationExpr, Ref(MuliplicativeOperator)))
  }
  function MuliplicativeOperatorDef(): RuleDef<RuleName> { Rule(FirstOf([P(Star), P(Div), P(Mod)]))
  }
  function AdditiveExprDef(): RuleDef<RuleName> { Collapsing(Level(MultiplicativeExpr, Ref(AdditiveOperator)))
  }
  function AdditiveOperatorDef(): RuleDef<RuleName> { Rule(FirstOf([P(Plus), P(Minus)]))
  }
  function ShiftExprDef(): RuleDef<RuleName> { Collapsing(Level(AdditiveExpr, Ref(ShiftOperator)))
  }
  function ShiftOperatorDef(): RuleDef<RuleName> { Rule(FirstOf([P(Sl), P(Sr)]))
  }
  function RelationalExprDef(): RuleDef<RuleName> { Collapsing(Level(ShiftExpr, Ref(RelationalOperator)))
  }
  function RelationalOperatorDef(): RuleDef<RuleName> { Rule(FirstOf([P(Le), P(Ge), P(Lt), P(Gt)]))
  }
  function EqualityExprDef(): RuleDef<RuleName> { Collapsing(Level(RelationalExpr, Ref(EqualityOperator)))
  }
  function EqualityOperatorDef(): RuleDef<RuleName> { Rule(FirstOf([P(NotEqual2), P(NotEqual), P(Equal2), P(Equal), P(NotEqualBis)]))
  }
  function BitewiseAndExprDef(): RuleDef<RuleName> { Collapsing(Level(EqualityExpr, P(Punctuator.And)))
  }
  function BitewiseXorExprDef(): RuleDef<RuleName> { Collapsing(Level(BitewiseAndExpr, P(Punctuator.Xor)))
  }
  function BitewiseOrExprDef(): RuleDef<RuleName> { Collapsing(Level(BitewiseXorExpr, P(Punctuator.Or)))
  }
  function LogicalAndExprDef(): RuleDef<RuleName> { Collapsing(Level(BitewiseOrExpr, Ref(LogicalAndOperator)))
  }
  function LogicalAndOperatorDef(): RuleDef<RuleName> { Rule(FirstOf([P(AndAnd), K(Keyword.And)]))
  }
  function LogicalXorExprDef(): RuleDef<RuleName> { Collapsing(Level(LogicalAndExpr, K(Keyword.Xor)))
  }
  function LogicalOrExprDef(): RuleDef<RuleName> { Collapsing(Level(LogicalXorExpr, Ref(LogicalOrOperator)))
  }
  function LogicalOrOperatorDef(): RuleDef<RuleName> { Rule(FirstOf([P(OrOr), K(Keyword.Or)]))
  }
  function ConditionalExprDef(): RuleDef<RuleName> {
    Collapsing(Seq([Ref(LogicalOrExpr),
      Optional(Seq([P(Query), Optional(Ref(AssignmentExpr)), P(Colon), Ref(AssignmentExpr)]))]))
  }
  function AssignmentExprDef(): RuleDef<RuleName> {
    Collapsing(FirstOf([
      Seq([Ref(Variable), P(Equ), P(Punctuator.And), FirstOf([Ref(Variable), Ref(NewExpr)])]),
      Seq([Ref(ConditionalExpr), Ref(AssignmentOperator), Ref(AssignmentExpr)]),
      Ref(ConditionalExpr)]))
  }
  function AssignmentOperatorDef(): RuleDef<RuleName> {
    Rule(FirstOf([P(Equ), Ref(CompoundAssignment), Ref(LogicalAssignment)]))
  }
  function CompoundAssignmentDef(): RuleDef<RuleName> {
    Rule(FirstOf([P(StarEqu), P(DivEqual), P(ModEqu), P(PlusEqu), P(MinusEqu), P(SlEqu), P(SrEqu), P(ConcatEqual)]))
  }
  function LogicalAssignmentDef(): RuleDef<RuleName> {
    Rule(FirstOf([P(AndEqual), P(XorEqu), P(OrEqu)]))
  }
  function ExpressionDef(): RuleDef<RuleName> {
    Rule(Ref(AssignmentExpr))
  }

  // Declarations
  function UseConstDeclarationStatementDef(): RuleDef<RuleName> {
    Rule(Seq([K(Use), K(Const), Ref(UseFunctionDeclarations), Ref(Eos)]))
  }
  function UseFunctionDeclarationStatementDef(): RuleDef<RuleName> {
    Rule(Seq([K(Use), K(Function), Ref(UseFunctionDeclarations), Ref(Eos)]))
  }
  function UseFunctionDeclarationsDef(): RuleDef<RuleName> {
    Rule(Seq([Ref(UseFunctionDeclaration), ZeroOrMore(Seq([P(Comma), Ref(UseFunctionDeclaration)]))]))
  }
  function UseFunctionDeclarationDef(): RuleDef<RuleName> {
    Rule(Seq([Ref(NamespaceName), Optional(Seq([K(As), T(Identifier)]))]))
  }
  function UseDeclarationsDef(): RuleDef<RuleName> {
    Rule(Seq([Ref(UseDeclaration), ZeroOrMore(Seq([P(Comma), Ref(UseDeclaration)]))]))
  }
  function UseDeclarationDef(): RuleDef<RuleName> {
    Rule(FirstOf([
      Seq([Ref(NamespaceName), K(As), T(Identifier)]),
      Ref(NamespaceName)]))
  }
  function ClassDeclarationDef(): RuleDef<RuleName> {
    Rule(Seq([Ref(ClassEntryType), T(Identifier), Optional(Ref(ExtendsFrom)), Optional(Ref(ImplementsList)),
      P(LCurlyBrace), ZeroOrMore(Ref(ClassStatement)), P(RCurlyBrace)]))
  }
  function ClassEntryTypeDef(): RuleDef<RuleName> {
    Rule(FirstOf([
      Seq([Optional(Ref(ClassType)), K(Class)]),
      K(Trait)]))
  }
  function ClassTypeDef(): RuleDef<RuleName> {
    Rule(FirstOf([K(Abstract), K(Final)]))
  }
  function ExtendsFromDef(): RuleDef<RuleName> {
    Rule(Seq([K(Extends), Ref(FullyQualifiedClassName)]))
  }
  function ImplementsListDef(): RuleDef<RuleName> {
    Rule(Seq([K(Implements), Ref(InterfaceList)]))
  }
  function InterfaceListDef(): RuleDef<RuleName> {
    Rule(Seq([Ref(FullyQualifiedClassName), ZeroOrMore(Seq([P(Comma), Ref(FullyQualifiedClassName)]))]))
  }
  function FullyQualifiedClassNameDef(): RuleDef<RuleName> {
    Rule(FirstOf([
      Seq([K(Namespace), Ref(FullyQualifiedName)]),
      Ref(NamespaceName)]))
  }
  function InterfaceDeclarationDef(): RuleDef<RuleName> {
    Rule(Seq([K(Interface), T(Identifier), Optional(Ref(InterfaceExtendsList)),
      P(LCurlyBrace), ZeroOrMore(Ref(ClassStatement)), P(RCurlyBrace)]))
  }
  function InterfaceExtendsListDef(): RuleDef<RuleName> {
    Rule(Seq([K(Extends), Ref(InterfaceList)]))
  }
  function ConstantDeclarationDef(): RuleDef<RuleName> {
    Rule(Seq([K(Const), Ref(ConstantVar), ZeroOrMore(Seq([P(Comma), Ref(ConstantVar)])), Ref(Eos)]))
  }
  function ConstantVarDef(): RuleDef<RuleName> {
    Rule(Seq([T(Identifier), P(Equ), Ref(StaticScalar)]))
  }
  function MethodDeclarationDef(): RuleDef<RuleName> {
    Rule(Seq([ZeroOrMore(Ref(MemberModifier)), K(Function), Optional(Ref(Reference)), T(Identifier),
      P(LParenthesis), Optional(Ref(ParameterList)), P(RParenthesis), Ref(MethodBody)]))
  }
  function MethodBodyDef(): RuleDef<RuleName> {
    Rule(FirstOf([Ref(Eos), Ref(Block)]))
  }
  function ParameterListDef(): RuleDef<RuleName> {
    Rule(Seq([Ref(Parameter), ZeroOrMore(Seq([P(Comma), Ref(Parameter)]))]))
  }
  function ParameterDef(): RuleDef<RuleName> {
    Rule(Seq([Optional(Ref(OptionalClassType)), Optional(P(Punctuator.And)), Optional(P(Elipsis)),
      T(VarIdentifier), Optional(Seq([P(Equ), Ref(StaticScalar)]))]))
  }
  function OptionalClassTypeDef(): RuleDef<RuleName> {
    Rule(FirstOf([K(Array), K(Callable), Ref(FullyQualifiedClassName)]))
  }
  function ClassVariableDeclarationDef(): RuleDef<RuleName> {
    Rule(Seq([Ref(VariableModifiers), Ref(VariableDeclaration),
      ZeroOrMore(Seq([P(Comma), Ref(VariableDeclaration)])), Ref(Eos)]))
  }
  function VariableDeclarationDef(): RuleDef<RuleName> {
    Rule(Seq([T(VarIdentifier), Optional(Seq([P(Equ), Ref(StaticScalar)]))]))
  }
  function VariableModifiersDef(): RuleDef<RuleName> {
    Rule(FirstOf([K(Var), OneOrMore(Ref(MemberModifier))]))
  }
  function ClassConstantDeclarationDef(): RuleDef<RuleName> {
    Rule(Seq([K(Const), Ref(MemberConstDeclaration),
      ZeroOrMore(Seq([P(Comma), Ref(MemberConstDeclaration)])), Ref(Eos)]))
  }
  function MemberConstDeclarationDef(): RuleDef<RuleName> {
    Rule(Seq([T(Identifier), Optional(Seq([P(Equ), Ref(StaticScalar)]))]))
  }
  function MemberModifierDef(): RuleDef<RuleName> {
    Rule(FirstOf([K(Public), K(Protected), K(Private), K(Static), K(Abstract), K(Final)]))
  }

  // Statements
  function TopStatementListDef(): RuleDef<RuleName> {
    Rule(OneOrMore(Ref(TopStatement)))
  }
  function TopStatementDef(): RuleDef<RuleName> {
    Rule(FirstOf([
      Ref(ClassDeclaration), Ref(FunctionDeclaration), Ref(InterfaceDeclaration),
      Ref(NamespaceStatement), Ref(UseStatement), Ref(UseFunctionDeclarationStatement),
      Ref(ConstantDeclaration), Ref(HaltCompilerStatement), Ref(Statement)]))
  }
  function NamespaceNameDef(): RuleDef<RuleName> {
    Rule(FirstOf([Ref(FullyQualifiedName), Ref(QualifiedName), Ref(UnqualifiedName)]))
  }
  function UnqualifiedNameDef(): RuleDef<RuleName> {
    Rule(T(Identifier))
  }
  function QualifiedNameDef(): RuleDef<RuleName> {
    Rule(Seq([T(Identifier), OneOrMore(Seq([P(NsSeparator), T(Identifier)]))]))
  }
  function FullyQualifiedNameDef(): RuleDef<RuleName> {
    Rule(Seq([P(NsSeparator), T(Identifier), ZeroOrMore(Seq([P(NsSeparator), T(Identifier)]))]))
  }
  function NamespaceStatementDef(): RuleDef<RuleName> {
    Rule(FirstOf([
      Seq([K(Namespace), Ref(NamespaceName), Ref(Eos)]),
      Seq([K(Namespace), Optional(Ref(NamespaceName)), P(LCurlyBrace), Optional(Ref(TopStatementList)), P(RCurlyBrace)])]))
  }
  function UseStatementDef(): RuleDef<RuleName> {
    Rule(Seq([K(Use), Ref(UseDeclarations), Ref(Eos)]))
  }
  function HaltCompilerStatementDef(): RuleDef<RuleName> {
    Rule(Seq([K(HaltCompiler), P(LParenthesis), P(RParenthesis), Ref(Eos)]))
  }
  function ReferenceDef(): RuleDef<RuleName> {
    Rule(P(Punctuator.And))
  }
  function FunctionDeclarationDef(): RuleDef<RuleName> {
    Rule(Seq([K(Function), Optional(Ref(Reference)), T(Identifier),
      P(LParenthesis), Optional(Ref(ParameterList)), P(RParenthesis), Ref(Block)]))
  }
  function StatementDef(): RuleDef<RuleName> {
    Rule(FirstOf([
      Ref(Block), Ref(Label), Ref(AlternativeIfStatement), Ref(ThrowStatement), Ref(IfStatement),
      Ref(WhileStatement), Ref(DoWhileStatement), Ref(ForeachStatement), Ref(ForStatement),
      Ref(SwitchStatement), Ref(BreakStatement), Ref(ContinueStatement), Ref(ReturnStatement),
      Ref(EmptyStatement), Ref(YieldStatement), Ref(GlobalStatement), Ref(StaticStatement),
      Ref(EchoStatement), Ref(TryStatement), Ref(DeclareStatement), Ref(GotoStatement),
      T(InlineHtml), Ref(UnsetVariableStatement), Ref(ExpressionStatement)]))
  }
  function EosDef(): RuleDef<RuleName> {
    RuleDef(FirstOf([P(Semicolon), T(InlineHtml)]), Skip)
  }
  function EmptyStatementDef(): RuleDef<RuleName> {
    Rule(P(Semicolon))
  }
  function LabelDef(): RuleDef<RuleName> {
    Rule(Seq([T(Identifier), P(Colon)]))
  }
  function BlockDef(): RuleDef<RuleName> {
    Rule(Seq([P(LCurlyBrace), Optional(Ref(InnerStatementList)), P(RCurlyBrace)]))
  }
  function IfStatementDef(): RuleDef<RuleName> {
    Rule(Seq([K(If), Ref(ParenthesisExpression), Ref(Statement), Optional(Ref(ElseifList)), Optional(Ref(ElseClause))]))
  }
  function ElseifListDef(): RuleDef<RuleName> {
    Rule(OneOrMore(Ref(ElseifClause)))
  }
  function ElseifClauseDef(): RuleDef<RuleName> {
    Rule(Seq([K(Elseif), Ref(ParenthesisExpression), Ref(Statement)]))
  }
  function ElseClauseDef(): RuleDef<RuleName> {
    Rule(Seq([K(Else), Ref(Statement)]))
  }
  function AlternativeIfStatementDef(): RuleDef<RuleName> {
    Rule(Seq([K(If), Ref(ParenthesisExpression), P(Colon), Optional(Ref(InnerStatementList)),
      Optional(Ref(AlternativeElseifList)), Optional(Ref(AlternativeElseClause)), K(Endif), Ref(Eos)]))
  }
  function AlternativeElseifListDef(): RuleDef<RuleName> {
    Rule(OneOrMore(Ref(AlternativeElseifClause)))
  }
  function AlternativeElseifClauseDef(): RuleDef<RuleName> {
    Rule(Seq([K(Elseif), Ref(ParenthesisExpression), P(Colon), Optional(Ref(InnerStatementList))]))
  }
  function AlternativeElseClauseDef(): RuleDef<RuleName> {
    Rule(Seq([K(Else), P(Colon), Optional(Ref(InnerStatementList))]))
  }
  function WhileStatementDef(): RuleDef<RuleName> {
    Rule(Seq([K(While), Ref(ParenthesisExpression), FirstOf([Ref(AlternativeWhileStatement), Ref(Statement)])]))
  }
  function AlternativeWhileStatementDef(): RuleDef<RuleName> {
    Rule(Seq([P(Colon), Optional(Ref(InnerStatementList)), K(Endwhile), Ref(Eos)]))
  }
  function DoWhileStatementDef(): RuleDef<RuleName> {
    Rule(Seq([K(Do), Ref(Statement), K(While), Ref(ParenthesisExpression), Ref(Eos)]))
  }
  function ForStatementDef(): RuleDef<RuleName> {
    Rule(Seq([K(For), P(LParenthesis), Optional(Ref(ForExrr)), P(Semicolon), Optional(Ref(ForExrr)),
      P(Semicolon), Optional(Ref(ForExrr)), P(RParenthesis),
      FirstOf([Ref(AlternativeForStatement), Ref(Statement)])]))
  }
  function ForExrrDef(): RuleDef<RuleName> {
    Rule(Seq([Ref(Expression), ZeroOrMore(Seq([P(Comma), Ref(Expression)]))]))
  }
  function AlternativeForStatementDef(): RuleDef<RuleName> {
    Rule(Seq([P(Colon), Optional(Ref(InnerStatementList)), K(Endfor), Ref(Eos)]))
  }
  function SwitchStatementDef(): RuleDef<RuleName> {
    Rule(Seq([K(Switch), Ref(ParenthesisExpression), Ref(SwitchCaseList)]))
  }
  function SwitchCaseListDef(): RuleDef<RuleName> {
    Rule(FirstOf([
      Seq([P(LCurlyBrace), Optional(P(Semicolon)), Optional(Ref(CaseList)), P(RCurlyBrace)]),
      Seq([P(Colon), Optional(P(Semicolon)), Optional(Ref(CaseList)), K(Endswitch), Ref(Eos)])]))
  }
  function CaseListDef(): RuleDef<RuleName> {
    Rule(OneOrMore(FirstOf([Ref(CaseClause), Ref(DefaultClause)])))
  }
  function CaseClauseDef(): RuleDef<RuleName> {
    Rule(Seq([K(Case), Ref(Expression), Ref(CaseSepartor), Optional(Ref(InnerStatementList))]))
  }
  function DefaultClauseDef(): RuleDef<RuleName> {
    Rule(Seq([K(Default), Ref(CaseSepartor), Optional(Ref(InnerStatementList))]))
  }
  function CaseSepartorDef(): RuleDef<RuleName> {
    Rule(FirstOf([P(Colon), P(Semicolon)]))
  }
  function BreakStatementDef(): RuleDef<RuleName> {
    Rule(Seq([K(Break), Optional(Ref(Expression)), Ref(Eos)]))
  }
  function ContinueStatementDef(): RuleDef<RuleName> {
    Rule(Seq([K(Continue), Optional(Ref(Expression)), Ref(Eos)]))
  }
  function ReturnStatementDef(): RuleDef<RuleName> {
    Rule(Seq([K(Return), Optional(Ref(Expression)), Ref(Eos)]))
  }
  function ExpressionStatementDef(): RuleDef<RuleName> {
    Rule(Seq([Ref(Expression), Ref(Eos)]))
  }
  function ForeachStatementDef(): RuleDef<RuleName> {
    Rule(Seq([K(Foreach), P(LParenthesis), Ref(ForeachExpr), P(RParenthesis),
      FirstOf([Ref(AlternativeForeachStatement), Ref(Statement)])]))
  }
  function ForeachExprDef(): RuleDef<RuleName> {
    Rule(Seq([Ref(Expression), K(As), Ref(ForeachVariable), Optional(Seq([P(DoubleArrow), Ref(ForeachVariable)]))]))
  }
  function ForeachVariableDef(): RuleDef<RuleName> {
    Rule(FirstOf([
      Seq([Optional(P(Punctuator.And)), Ref(Variable)]),
      Seq([K(List), P(LParenthesis), Ref(AssignmentList), P(RParenthesis)])]))
  }
  function AlternativeForeachStatementDef(): RuleDef<RuleName> {
    Rule(Seq([P(Colon), Optional(Ref(InnerStatementList)), K(Endforeach), Ref(Eos)]))
  }
  function DeclareStatementDef(): RuleDef<RuleName> {
    Rule(Seq([K(Declare), P(LParenthesis), Ref(DeclareList), P(RParenthesis),
      FirstOf([Ref(AlternativeDeclareStatement), Ref(Eos), Ref(Statement)])]))
  }
  function DeclareListDef(): RuleDef<RuleName> {
    Rule(Seq([Ref(MemberConstDeclaration), ZeroOrMore(Seq([P(Comma), Ref(MemberConstDeclaration)]))]))
  }
  function AlternativeDeclareStatementDef(): RuleDef<RuleName> {
    Rule(Seq([P(Colon), Optional(Ref(InnerStatementList)), K(Enddeclare), Ref(Eos)]))
  }
  function TryStatementDef(): RuleDef<RuleName> {
    Rule(Seq([K(Try), Ref(Block), ZeroOrMore(Ref(CatchStatement)), Optional(Ref(FinallyStatement))]))
  }
  function CatchStatementDef(): RuleDef<RuleName> {
    Rule(Seq([K(Catch), P(LParenthesis), Ref(FullyQualifiedClassName), T(VarIdentifier), P(RParenthesis), Ref(Block)]))
  }
  function FinallyStatementDef(): RuleDef<RuleName> {
    Rule(Seq([K(Finally), Ref(Block)]))
  }
  function ThrowStatementDef(): RuleDef<RuleName> {
    Rule(Seq([K(Throw), Ref(Expression), Ref(Eos)]))
  }
  function GotoStatementDef(): RuleDef<RuleName> {
    Rule(Seq([K(Goto), T(Identifier), Ref(Eos)]))
  }
  function YieldStatementDef(): RuleDef<RuleName> {
    Rule(Seq([Ref(YieldExpression), Ref(Eos)]))
  }
  function GlobalStatementDef(): RuleDef<RuleName> {
    Rule(Seq([K(Global), Ref(GlobalVarList), Ref(Eos)]))
  }
  function GlobalVarListDef(): RuleDef<RuleName> {
    Rule(Seq([Ref(GlobalVar), ZeroOrMore(Seq([P(Comma), Ref(GlobalVar)]))]))
  }
  function GlobalVarDef(): RuleDef<RuleName> {
    Rule(FirstOf([
      Seq([P(Dolar), Ref(Expression)]),
      T(VarIdentifier)]))
  }
  function StaticStatementDef(): RuleDef<RuleName> {
    Rule(Seq([K(Static), Ref(StaticVarList), Ref(Eos)]))
  }
  function StaticVarListDef(): RuleDef<RuleName> {
    Rule(Seq([Ref(StaticVar), ZeroOrMore(Seq([P(Comma), Ref(StaticVar)]))]))
  }
  function StaticVarDef(): RuleDef<RuleName> {
    Rule(Seq([T(VarIdentifier), Optional(Seq([P(Equ), Ref(StaticScalar)]))]))
  }
  function EchoStatementDef(): RuleDef<RuleName> {
    Rule(Seq([K(Echo), Ref(Expression), ZeroOrMore(Seq([P(Comma), Ref(Expression)])), Ref(Eos)]))
  }
  function UnsetVariableStatementDef(): RuleDef<RuleName> {
    Rule(Seq([K(Unset), P(LParenthesis), Ref(UnsetVariables), P(RParenthesis), Ref(Eos)]))
  }
  function UnsetVariablesDef(): RuleDef<RuleName> {
    Rule(Seq([Ref(Variable), ZeroOrMore(Seq([P(Comma), Ref(Variable)]))]))
  }
  function ClassStatementDef(): RuleDef<RuleName> {
    Rule(FirstOf([Ref(MethodDeclaration), Ref(ClassVariableDeclaration), Ref(ClassConstantDeclaration), Ref(TraitUseStatement)]))
  }
  function TraitUseStatementDef(): RuleDef<RuleName> {
    Rule(Seq([K(Use), Ref(InterfaceList), Ref(TraitAdaptations)]))
  }
  function TraitAdaptationsDef(): RuleDef<RuleName> {
    Rule(FirstOf([
      Seq([P(LCurlyBrace), ZeroOrMore(Ref(TraitAdaptationStatement)), P(RCurlyBrace)]),
      Ref(Eos)]))
  }
  function TraitAdaptationStatementDef(): RuleDef<RuleName> {
    Rule(Seq([FirstOf([Ref(TraitPrecedence), Ref(TraitAlias)]), Ref(Eos)]))
  }
  function TraitPrecedenceDef(): RuleDef<RuleName> {
    Rule(Seq([Ref(TraitMethodReferenceFullyQualified), K(Insteadof), Ref(InterfaceList)]))
  }
  function TraitAliasDef(): RuleDef<RuleName> {
    Rule(Seq([Ref(TraitMethodReference), K(As), FirstOf([
      Seq([Optional(Ref(MemberModifier)), T(Identifier)]),
      Ref(MemberModifier)])]))
  }
  function TraitMethodReferenceDef(): RuleDef<RuleName> {
    Rule(FirstOf([Ref(TraitMethodReferenceFullyQualified), T(Identifier)]))
  }
  function TraitMethodReferenceFullyQualifiedDef(): RuleDef<RuleName> {
    Rule(Seq([Ref(FullyQualifiedClassName), P(DoubleColon), T(Identifier)]))
  }
  function InnerStatementListDef(): RuleDef<RuleName> {
    Rule(OneOrMore(FirstOf([
      Ref(FunctionDeclaration), Ref(ClassDeclaration), Ref(InterfaceDeclaration),
      Ref(HaltCompilerStatement), Ref(Statement)])))
  }

  // Keywords
  function KeywordsDef(): RuleDef<RuleName> {
    Rule(FirstOf(KeywordAlternatives()))
  }

  /**
   * The rule table: the definition registered for each rule name. It is laid
   * out as a balanced binary search over the rule numbers, so that looking up
   * one rule unfolds only the path to it.
   */
  function Definition(r: RuleName): RuleDef<RuleName> {
    if r < MethodBody then DefinitionIn0To81(r)
    else DefinitionIn81To163(r)
  }

  function DefinitionIn0To81(r: RuleName): RuleDef<RuleName>
    requires 0 <= r as int < 81
  {
    if r < MuliplicativeOperator then DefinitionIn0To40(r)
    else DefinitionIn40To81(r)
  }

  function DefinitionIn0To40(r: RuleName): RuleDef<RuleName>
    requires 0 <= r as int < 40
  {
    if r < ArrayPairList then DefinitionIn0To20(r)
    else DefinitionIn20To40(r)
  }

  function DefinitionIn0To20(r: RuleName): RuleDef<RuleName>
    requires 0 <= r as int < 20
  {
    if r < VariableName then DefinitionIn0To10(r)
    else DefinitionIn10To20(r)
  }

  function DefinitionIn0To10(r: RuleName): RuleDef<RuleName>
    requires 0 <= r as int < 10
  {
    if r < VariableWithoutObjects then DefinitionIn0To5(r)
    else DefinitionIn5To10(r)
  }

  function DefinitionIn0To5(r: RuleName): RuleDef<RuleName>
    requires 0 <= r as int < 5
  {
    if r < YieldExpression then (if r == CompilationUnit then CompilationUnitDef() else ParenthesisExpressionDef())
    else DefinitionIn2To5(r)
  }

  function DefinitionIn2To5(r: RuleName): RuleDef<RuleName>
    requires 2 <= r as int < 5
  {
    if r < SimpleIndirectReference then YieldExpressionDef()
    else (if r == SimpleIndirectReference then SimpleIndirectReferenceDef() else ReferenceVariableDef())
  }

  function DefinitionIn5To10(r: RuleName): RuleDef<RuleName>
    requires 5 <= r as int < 10
  {
    if r < ClassName then (if r == VariableWithoutObjects then VariableWithoutObjectsDef() else CompoundVariableDef())
    else DefinitionIn7To10(r)
  }

  function DefinitionIn7To10(r: RuleName): RuleDef<RuleName>
    requires 7 <= r as int < 10
  {
    if r < FunctionCallParameterList then ClassNameDef()
    else (if r == FunctionCallParameterList then FunctionCallParameterListDef() else ParameterListForCallDef())
  }

  function DefinitionIn10To20(r: RuleName): RuleDef<RuleName>
    requires 10 <= r as int < 20
  {
    if r < ClassMemberAccess then DefinitionIn10To15(r)
    else DefinitionIn15To20(r)
  }

  function DefinitionIn10To15(r: RuleName): RuleDef<RuleName>
    requires 10 <= r as int < 15
  {
    if r < AliasVariable then (if r == VariableName then VariableNameDef() else DimensionalOffsetDef())
    else DefinitionIn12To15(r)
  }

  function DefinitionIn12To15(r: RuleName): RuleDef<RuleName>
    requires 12 <= r as int < 15
  {
    if r < Variable then AliasVariableDef()
    else (if r == Variable then VariableDef() else ObjectMemberAccessDef())
  }

  function DefinitionIn15To20(r: RuleName): RuleDef<RuleName>
    requires 15 <= r as int < 20
  {
    if r < StaticScalar then (if r == ClassMemberAccess then ClassMemberAccessDef() else ObjectDimListDef())
    else DefinitionIn17To20(r)
  }

  function DefinitionIn17To20(r: RuleName): RuleDef<RuleName>
    requires 17 <= r as int < 20
  {
    if r < CombinedScalarOffset then StaticScalarDef()
    else (if r == CombinedScalarOffset then CombinedScalarOffsetDef() else CombinedScalarDef())
  }

  function DefinitionIn20To40(r: RuleName): RuleDef<RuleName>
    requires 20 <= r as int < 40
  {
    if r < ExitExpr then DefinitionIn20To30(r)
    else DefinitionIn30To40(r)
  }

  function DefinitionIn20To30(r: RuleName): RuleDef<RuleName>
    requires 20 <= r as int < 30
  {
    if r < PostfixExpr then DefinitionIn20To25(r)
    else DefinitionIn25To30(r)
  }

  function DefinitionIn20To25(r: RuleName): RuleDef<RuleName>
    requires 20 <= r as int < 25
  {
    if r < CommonScalar then (if r == ArrayPairList then ArrayPairListDef() else ArrayPairDef())
    else DefinitionIn22To25(r)
  }

  function DefinitionIn22To25(r: RuleName): RuleDef<RuleName>
    requires 22 <= r as int < 25
  {
    if r < BooleanLiteral then CommonScalarDef()
    else (if r == BooleanLiteral then BooleanLiteralDef() else CastTypeDef())
  }

  function DefinitionIn25To30(r: RuleName): RuleDef<RuleName>
    requires 25 <= r as int < 30
  {
    if r < LexicalVars then (if r == PostfixExpr then PostfixExprDef() else FunctionExpressionDef())
    else DefinitionIn27To30(r)
  }

  function DefinitionIn27To30(r: RuleName): RuleDef<RuleName>
    requires 27 <= r as int < 30
  {
    if r < LexicalVarList then LexicalVarsDef()
    else (if r == LexicalVarList then LexicalVarListDef() else LexicalVarDef())
  }

  function DefinitionIn30To40(r: RuleName): RuleDef<RuleName>
    requires 30 <= r as int < 40
  {
    if r < InternalFunction then DefinitionIn30To35(r)
    else DefinitionIn35To40(r)
  }

  function DefinitionIn30To35(r: RuleName): RuleDef<RuleName>
    requires 30 <= r as int < 35
  {
    if r < ListExpr then (if r == ExitExpr then ExitExprDef() else ListAssignmentExprDef())
    else DefinitionIn32To35(r)
  }

  function DefinitionIn32To35(r: RuleName): RuleDef<RuleName>
    requires 32 <= r as int < 35
  {
    if r < AssignmentList then ListExprDef()
    else (if r == AssignmentList then AssignmentListDef() else AssignmentListElementDef())
  }

  function DefinitionIn35To40(r: RuleName): RuleDef<RuleName>
    requires 35 <= r as int < 40
  {
    if r < UnaryExpr then (if r == InternalFunction then InternalFunctionDef() else NewExprDef())
    else DefinitionIn37To40(r)
  }

  function DefinitionIn37To40(r: RuleName): RuleDef<RuleName>
    requires 37 <= r as int < 40
  {
    if r < ConcatenationExpr then UnaryExprDef()
    else (if r == ConcatenationExpr then ConcatenationExprDef() else MultiplicativeExprDef())
  }

  function DefinitionIn40To81(r: RuleName): RuleDef<RuleName>
    requires 40 <= r as int < 81
  {
    if r < CompoundAssignment then DefinitionIn40To60(r)
    else DefinitionIn60To81(r)
  }

  function DefinitionIn40To60(r: RuleName): RuleDef<RuleName>
    requires 40 <= r as int < 60
  {
    if r < BitewiseXorExpr then DefinitionIn40To50(r)
    else DefinitionIn50To60(r)
  }

  function DefinitionIn40To50(r: RuleName): RuleDef<RuleName>
    requires 40 <= r as int < 50
  {
    if r < RelationalExpr then DefinitionIn40To45(r)
    else DefinitionIn45To50(r)
  }

  function DefinitionIn40To45(r: RuleName): RuleDef<RuleName>
    requires 40 <= r as int < 45
  {
    if r < AdditiveOperator then (if r == MuliplicativeOperator then MuliplicativeOperatorDef() else AdditiveExprDef())
    else DefinitionIn42To45(r)
  }

  function DefinitionIn42To45(r: RuleName): RuleDef<RuleName>
    requires 42 <= r as int < 45
  {
    if r < ShiftExpr then AdditiveOperatorDef()
    else (if r == ShiftExpr then ShiftExprDef() else ShiftOperatorDef())
  }

  function DefinitionIn45To50(r: RuleName): RuleDef<RuleName>
    requires 45 <= r as int < 50
  {
    if r < EqualityExpr then (if r == RelationalExpr then RelationalExprDef() else RelationalOperatorDef())
    else DefinitionIn47To50(r)
  }

  function DefinitionIn47To50(r: RuleName): RuleDef<RuleName>
    requires 47 <= r as int < 50
  {
    if r < EqualityOperator then EqualityExprDef()
    else (if r == EqualityOperator then EqualityOperatorDef() else BitewiseAndExprDef())
  }

  function DefinitionIn50To60(r: RuleName): RuleDef<RuleName>
    requires 50 <= r as int < 60
  {
    if r < LogicalOrExpr then DefinitionIn50To55(r)
    else DefinitionIn55To60(r)
  }

  function DefinitionIn50To55(r: RuleName): RuleDef<RuleName>
    requires 50 <= r as int < 55
  {
    if r < LogicalAndExpr then (if r == BitewiseXorExpr then BitewiseXorExprDef() else BitewiseOrExprDef())
    else DefinitionIn52To55(r)
  }

  function DefinitionIn52To55(r: RuleName): RuleDef<RuleName>
    requires 52 <= r as int < 55
  {
    if r < LogicalAndOperator then LogicalAndExprDef()
    else (if r == LogicalAndOperator then LogicalAndOperatorDef() else LogicalXorExprDef())
  }

  function DefinitionIn55To60(r: RuleName): RuleDef<RuleName>
    requires 55 <= r as int < 60
  {
    if r < ConditionalExpr then (if r == LogicalOrExpr then LogicalOrExprDef() else LogicalOrOperatorDef())
    else DefinitionIn57To60(r)
  }

  function DefinitionIn57To60(r: RuleName): RuleDef<RuleName>
    requires 57 <= r as int < 60
  {
    if r < AssignmentExpr then ConditionalExprDef()
    else (if r == AssignmentExpr then AssignmentExprDef() else AssignmentOperatorDef())
  }

  function DefinitionIn60To81(r: RuleName): RuleDef<RuleName>
    requires 60 <= r as int < 81
  {
    if r < ClassEntryType then DefinitionIn60To70(r)
    else DefinitionIn70To81(r)
  }

  function DefinitionIn60To70(r: RuleName): RuleDef<RuleName>
    requires 60 <= r as int < 70
  {
    if r < UseFunctionDeclarations then DefinitionIn60To65(r)
    else DefinitionIn65To70(r)
  }

  function DefinitionIn60To65(r: RuleName): RuleDef<RuleName>
    requires 60 <= r as int < 65
  {
    if r < Expression then (if r == CompoundAssignment then CompoundAssignmentDef() else LogicalAssignmentDef())
    else DefinitionIn62To65(r)
  }

  function DefinitionIn62To65(r: RuleName): RuleDef<RuleName>
    requires 62 <= r as int < 65
  {
    if r < UseConstDeclarationStatement then ExpressionDef()
    else (if r == UseConstDeclarationStatement then UseConstDeclarationStatementDef() else UseFunctionDeclarationStatementDef())
  }

  function DefinitionIn65To70(r: RuleName): RuleDef<RuleName>
    requires 65 <= r as int < 70
  {
    if r < UseDeclarations then (if r == UseFunctionDeclarations then UseFunctionDeclarationsDef() else UseFunctionDeclarationDef())
    else DefinitionIn67To70(r)
  }

  function DefinitionIn67To70(r: RuleName): RuleDef<RuleName>
    requires 67 <= r as int < 70
  {
    if r < UseDeclaration then UseDeclarationsDef()
    else (if r == UseDeclaration then UseDeclarationDef() else ClassDeclarationDef())
  }

  function DefinitionIn70To81(r: RuleName): RuleDef<RuleName>
    requires 70 <= r as int < 81
  {
    if r < FullyQualifiedClassName then DefinitionIn70To75(r)
    else DefinitionIn75To81(r)
  }

  function DefinitionIn70To75(r: RuleName): RuleDef<RuleName>
    requires 70 <= r as int < 75
  {
    if r < ExtendsFrom then (if r == ClassEntryType then ClassEntryTypeDef() else ClassTypeDef())
    else DefinitionIn72To75(r)
  }

  function DefinitionIn72To75(r: RuleName): RuleDef<RuleName>
    requires 72 <= r as int < 75
  {
    if r < ImplementsList then ExtendsFromDef()
    else (if r == ImplementsList then ImplementsListDef() else InterfaceListDef())
  }

  function DefinitionIn75To81(r: RuleName): RuleDef<RuleName>
    requires 75 <= r as int < 81
  {
    if r < ConstantDeclaration then DefinitionIn75To78(r)
    else DefinitionIn78To81(r)
  }

  function DefinitionIn75To78(r: RuleName): RuleDef<RuleName>
    requires 75 <= r as int < 78
  {
    if r < InterfaceDeclaration then FullyQualifiedClassNameDef()
    else (if r == InterfaceDeclaration then InterfaceDeclarationDef() else InterfaceExtendsListDef())
  }

  function DefinitionIn78To81(r: RuleName): RuleDef<RuleName>
    requires 78 <= r as int < 81
  {
    if r < ConstantVar then ConstantDeclarationDef()
    else (if r == ConstantVar then ConstantVarDef() else MethodDeclarationDef())
  }

  function DefinitionIn81To163(r: RuleName): RuleDef<RuleName>
    requires 81 <= r as int < 163
  {
    if r < SwitchCaseList then DefinitionIn81To122(r)
    else DefinitionIn122To163(r)
  }

  function DefinitionIn81To122(r: RuleName): RuleDef<RuleName>
    requires 81 <= r as int < 122
  {
    if r < FunctionDeclaration then DefinitionIn81To101(r)
    else DefinitionIn101To122(r)
  }

  function DefinitionIn81To101(r: RuleName): RuleDef<RuleName>
    requires 81 <= r as int < 101
  {
    if r < TopStatementList then DefinitionIn81To91(r)
    else DefinitionIn91To101(r)
  }

  function DefinitionIn81To91(r: RuleName): RuleDef<RuleName>
    requires 81 <= r as int < 91
  {
    if r < VariableDeclaration then DefinitionIn81To86(r)
    else DefinitionIn86To91(r)
  }

  function DefinitionIn81To86(r: RuleName): RuleDef<RuleName>
    requires 81 <= r as int < 86
  {
    if r < Parameter then (if r == MethodBody then MethodBodyDef() else ParameterListDef())
    else DefinitionIn83To86(r)
  }

  function DefinitionIn83To86(r: RuleName): RuleDef<RuleName>
    requires 83 <= r as int < 86
  {
    if r < OptionalClassType then ParameterDef()
    else (if r == OptionalClassType then OptionalClassTypeDef() else ClassVariableDeclarationDef())
  }

  function DefinitionIn86To91(r: RuleName): RuleDef<RuleName>
    requires 86 <= r as int < 91
  {
    if r < ClassConstantDeclaration then (if r == VariableDeclaration then VariableDeclarationDef() else VariableModifiersDef())
    else DefinitionIn88To91(r)
  }

  function DefinitionIn88To91(r: RuleName): RuleDef<RuleName>
    requires 88 <= r as int < 91
  {
    if r < MemberConstDeclaration then ClassConstantDeclarationDef()
    else (if r == MemberConstDeclaration then MemberConstDeclarationDef() else MemberModifierDef())
  }

  function DefinitionIn91To101(r: RuleName): RuleDef<RuleName>
    requires 91 <= r as int < 101
  {
    if r < FullyQualifiedName then DefinitionIn91To96(r)
    else DefinitionIn96To101(r)
  }

  function DefinitionIn91To96(r: RuleName): RuleDef<RuleName>
    requires 91 <= r as int < 96
  {
    if r < NamespaceName then (if r == TopStatementList then TopStatementListDef() else TopStatementDef())
    else DefinitionIn93To96(r)
  }

  function DefinitionIn93To96(r: RuleName): RuleDef<RuleName>
    requires 93 <= r as int < 96
  {
    if r < UnqualifiedName then NamespaceNameDef()
    else (if r == UnqualifiedName then UnqualifiedNameDef() else QualifiedNameDef())
  }

  function DefinitionIn96To101(r: RuleName): RuleDef<RuleName>
    requires 96 <= r as int < 101
  {
    if r < UseStatement then (if r == FullyQualifiedName then FullyQualifiedNameDef() else NamespaceStatementDef())
    else DefinitionIn98To101(r)
  }

  function DefinitionIn98To101(r: RuleName): RuleDef<RuleName>
    requires 98 <= r as int < 101
  {
    if r < HaltCompilerStatement then UseStatementDef()
    else (if r == HaltCompilerStatement then HaltCompilerStatementDef() else ReferenceDef())
  }

  function DefinitionIn101To122(r: RuleName): RuleDef<RuleName>
    requires 101 <= r as int < 122
  {
    if r < AlternativeIfStatement then DefinitionIn101To111(r)
    else DefinitionIn111To122(r)
  }

  function DefinitionIn101To111(r: RuleName): RuleDef<RuleName>
    requires 101 <= r as int < 111
  {
    if r < Block then DefinitionIn101To106(r)
    else DefinitionIn106To111(r)
  }

  function DefinitionIn101To106(r: RuleName): RuleDef<RuleName>
    requires 101 <= r as int < 106
  {
    if r < Eos then (if r == FunctionDeclaration then FunctionDeclarationDef() else StatementDef())
    else DefinitionIn103To106(r)
  }

  function DefinitionIn103To106(r: RuleName): RuleDef<RuleName>
    requires 103 <= r as int < 106
  {
    if r < EmptyStatement then EosDef()
    else (if r == EmptyStatement then EmptyStatementDef() else LabelDef())
  }

  function DefinitionIn106To111(r: RuleName): RuleDef<RuleName>
    requires 106 <= r as int < 111
  {
    if r < ElseifList then (if r == Block then BlockDef() else IfStatementDef())
    else DefinitionIn108To111(r)
  }

  function DefinitionIn108To111(r: RuleName): RuleDef<RuleName>
    requires 108 <= r as int < 111
  {
    if r < ElseifClause then ElseifListDef()
    else (if r == ElseifClause then ElseifClauseDef() else ElseClauseDef())
  }

  function DefinitionIn111To122(r: RuleName): RuleDef<RuleName>
    requires 111 <= r as int < 122
  {
    if r < AlternativeWhileStatement then DefinitionIn111To116(r)
    else DefinitionIn116To122(r)
  }

  function DefinitionIn111To116(r: RuleName): RuleDef<RuleName>
    requires 111 <= r as int < 116
  {
    if r < AlternativeElseifClause then (if r == AlternativeIfStatement then AlternativeIfStatementDef() else AlternativeElseifListDef())
    else DefinitionIn113To116(r)
  }

  function DefinitionIn113To116(r: RuleName): RuleDef<RuleName>
    requires 113 <= r as int < 116
  {
    if r < AlternativeElseClause then AlternativeElseifClauseDef()
    else (if r == AlternativeElseClause then AlternativeElseClauseDef() else WhileStatementDef())
  }

  function DefinitionIn116To122(r: RuleName): RuleDef<RuleName>
    requires 116 <= r as int < 122
  {
    if r < ForExrr then DefinitionIn116To119(r)
    else DefinitionIn119To122(r)
  }

  function DefinitionIn116To119(r: RuleName): RuleDef<RuleName>
    requires 116 <= r as int < 119
  {
    if r < DoWhileStatement then AlternativeWhileStatementDef()
    else (if r == DoWhileStatement then DoWhileStatementDef() else ForStatementDef())
  }

  function DefinitionIn119To122(r: RuleName): RuleDef<RuleName>
    requires 119 <= r as int < 122
  {
    if r < AlternativeForStatement then ForExrrDef()
    else (if r == AlternativeForStatement then AlternativeForStatementDef() else SwitchStatementDef())
  }

  function DefinitionIn122To163(r: RuleName): RuleDef<RuleName>
    requires 122 <= r as int < 163
  {
    if r < GotoStatement then DefinitionIn122To142(r)
    else DefinitionIn142To163(r)
  }

  function DefinitionIn122To142(r: RuleName): RuleDef<RuleName>
    requires 122 <= r as int < 142
  {
    if r < ForeachExpr then DefinitionIn122To132(r)
    else DefinitionIn132To142(r)
  }

  function DefinitionIn122To132(r: RuleName): RuleDef<RuleName>
    requires 122 <= r as int < 132
  {
    if r < BreakStatement then DefinitionIn122To127(r)
    else DefinitionIn127To132(r)
  }

  function DefinitionIn122To127(r: RuleName): RuleDef<RuleName>
    requires 122 <= r as int < 127
  {
    if r < CaseClause then (if r == SwitchCaseList then SwitchCaseListDef() else CaseListDef())
    else DefinitionIn124To127(r)
  }

  function DefinitionIn124To127(r: RuleName): RuleDef<RuleName>
    requires 124 <= r as int < 127
  {
    if r < DefaultClause then CaseClauseDef()
    else (if r == DefaultClause then DefaultClauseDef() else CaseSepartorDef())
  }

  function DefinitionIn127To132(r: RuleName): RuleDef<RuleName>
    requires 127 <= r as int < 132
  {
    if r < ReturnStatement then (if r == BreakStatement then BreakStatementDef() else ContinueStatementDef())
    else DefinitionIn129To132(r)
  }

  function DefinitionIn129To132(r: RuleName): RuleDef<RuleName>
    requires 129 <= r as int < 132
  {
    if r < ExpressionStatement then ReturnStatementDef()
    else (if r == ExpressionStatement then ExpressionStatementDef() else ForeachStatementDef())
  }

  function DefinitionIn132To142(r: RuleName): RuleDef<RuleName>
    requires 132 <= r as int < 142
  {
    if r < AlternativeDeclareStatement then DefinitionIn132To137(r)
    else DefinitionIn137To142(r)
  }

  function DefinitionIn132To137(r: RuleName): RuleDef<RuleName>
    requires 132 <= r as int < 137
  {
    if r < AlternativeForeachStatement then (if r == ForeachExpr then ForeachExprDef() else ForeachVariableDef())
    else DefinitionIn134To137(r)
  }

  function DefinitionIn134To137(r: RuleName): RuleDef<RuleName>
    requires 134 <= r as int < 137
  {
    if r < DeclareStatement then AlternativeForeachStatementDef()
    else (if r == DeclareStatement then DeclareStatementDef() else DeclareListDef())
  }

  function DefinitionIn137To142(r: RuleName): RuleDef<RuleName>
    requires 137 <= r as int < 142
  {
    if r < CatchStatement then (if r == AlternativeDeclareStatement then AlternativeDeclareStatementDef() else TryStatementDef())
    else DefinitionIn139To142(r)
  }

  function DefinitionIn139To142(r: RuleName): RuleDef<RuleName>
    requires 139 <= r as int < 142
  {
    if r < FinallyStatement then CatchStatementDef()
    else (if r == FinallyStatement then FinallyStatementDef() else ThrowStatementDef())
  }

  function DefinitionIn142To163(r: RuleName): RuleDef<RuleName>
    requires 142 <= r as int < 163
  {
    if r < UnsetVariables then DefinitionIn142To152(r)
    else DefinitionIn152To163(r)
  }

  function DefinitionIn142To152(r: RuleName): RuleDef<RuleName>
    requires 142 <= r as int < 152
  {
    if r < StaticStatement then DefinitionIn142To147(r)
    else DefinitionIn147To152(r)
  }

  function DefinitionIn142To147(r: RuleName): RuleDef<RuleName>
    requires 142 <= r as int < 147
  {
    if r < GlobalStatement then (if r == GotoStatement then GotoStatementDef() else YieldStatementDef())
    else DefinitionIn144To147(r)
  }

  function DefinitionIn144To147(r: RuleName): RuleDef<RuleName>
    requires 144 <= r as int < 147
  {
    if r < GlobalVarList then GlobalStatementDef()
    else (if r == GlobalVarList then GlobalVarListDef() else GlobalVarDef())
  }

  function DefinitionIn147To152(r: RuleName): RuleDef<RuleName>
    requires 147 <= r as int < 152
  {
    if r < StaticVar then (if r == StaticStatement then StaticStatementDef() else StaticVarListDef())
    else DefinitionIn149To152(r)
  }

  function DefinitionIn149To152(r: RuleName): RuleDef<RuleName>
    requires 149 <= r as int < 152
  {
    if r < EchoStatement then StaticVarDef()
    else (if r == EchoStatement then EchoStatementDef() else UnsetVariableStatementDef())
  }

  function DefinitionIn152To163(r: RuleName): RuleDef<RuleName>
    requires 152 <= r as int < 163
  {
    if r < TraitPrecedence then DefinitionIn152To157(r)
    else DefinitionIn157To163(r)
  }

  function DefinitionIn152To157(r: RuleName): RuleDef<RuleName>
    requires 152 <= r as int < 157
  {
    if r < TraitUseStatement then (if r == UnsetVariables then UnsetVariablesDef() else ClassStatementDef())
    else DefinitionIn154To157(r)
  }

  function DefinitionIn154To157(r: RuleName): RuleDef<RuleName>
    requires 154 <= r as int < 157
  {
    if r < TraitAdaptations then TraitUseStatementDef()
    else (if r == TraitAdaptations then TraitAdaptationsDef() else TraitAdaptationStatementDef())
  }

  function DefinitionIn157To163(r: RuleName): RuleDef<RuleName>
    requires 157 <= r as int < 163
  {
    if r < TraitMethodReferenceFullyQualified then DefinitionIn157To160(r)
    else DefinitionIn160To163(r)
  }

  function DefinitionIn157To160(r: RuleName): RuleDef<RuleName>
    requires 157 <= r as int < 160
  {
    if r < TraitAlias then TraitPrecedenceDef()
    else (if r == TraitAlias then TraitAliasDef() else TraitMethodReferenceDef())
  }

  function DefinitionIn160To163(r: RuleName): RuleDef<RuleName>
    requires 160 <= r as int < 163
  {
    if r < InnerStatementList then TraitMethodReferenceFullyQualifiedDef()
    else (if r == InnerStatementList then InnerStatementListDef() else KeywordsDef())
  }
}
