# sonar-php front end and line checks, modelled in Dafny

This project models the core of the PHP analyser of sonar-php:

- **Tag-mode lexer channel** (`PHPTagsChannel`). It cuts the free text around embedded PHP code into tokens:
  - at the start of a file, everything up to and including the first opening tag (`<?php`, `<?=` or `<?`);
  - after each closing tag `?>`, everything up to and including the next opening tag.
- **PHP grammar** (`PHPGrammar`). An ordered-choice (PEG) rule table over lexed tokens.
  - The engine that runs it is written out here (module `Peg`). It has terminals, sequences, ordered choices, optional parts and repetitions.
  - A rule may be dropped from the tree (`skip`) or collapsed into its only child (`skipIfOneChild`).
  - The rule table itself is module `PhpGrammar`: every rule of `create`, `expression`, `declaration`, `statement` and `keywords`.
  - The properties proved are about:
    - the expression precedence chain;
    - the conditional and the assignment;
    - the statement forms of `if`;
    - the compilation unit;
    - the `KEYWORDS` rule.
- **Per-line metrics visitor** (`FileLinesVisitor`). A class with two sets of lines that the visits of tokens fill. When the file is left, it emits a code flag and a comment flag for each line, then clears both sets.
- **Commented-out-code check** (`CommentedOutCodeCheck`). A class that walks a token's trivia, each examined after the one before it. It reports commented-out code:
  - for a `//` comment, with a suppression rule for consecutive lines;
  - for a block comment, at its first line that looks like code;
  - never for a documentation comment.
- **Left-curly-brace check** (`LeftCurlyBraceStartsLineCheck`). A verdict on three line numbers around each `{`.

Modules and files:

- `wrappers.dfy`: the `Option` type.
- `tokens.dfy`: token kinds, tokens and trivia.
- `tags.dfy`: the channel.
- `peg.dfy`: the engine.
- `grammar.dfy`: the rule table.
- `keywords.dfy`: the construction of `KEYWORDS`.
- `expressions.dfy`, `statements.dfy`: lemmas about the grammar.
- `expression_examples.dfy`, `statement_examples.dfy`: concrete parse trees.
- `file_lines.dfy`, `commented_code.dfy`, `left_curly.dfy`: the visitor and the two checks.

How lemmas about the grammar are stated:

- They are generic over a rule table `g` that agrees with `Definition` on the rules they need.
- Each family has a `Definition…` lemma that instantiates it for the grammar's own table.
- A parse is the engine's outcome on a token list. It is `Matched(end, nodes)`, `NoMatch`, `EmptyLoop` (a repetition whose body consumed nothing) or `OutOfFuel`.

Where the specification and the code differ, the model follows the code:

- The text that the START pattern matches is typed as the file's opening tag, `FILE_OPENING_TAG`. This includes any literal text before the tag.
- A binary level of the grammar produces one flat node with all its operands and operators, left to right. The levels are `next (operator next)*` with `skipIfOneChild`, so `1 - 2 - 3` is a single node with three operands, not a nested `((1 - 2) - 3)`. Left associativity is the left-to-right order of the flat node's children.
- The block comment's lines come from Java's `Pattern.split`:
  - `\r\n` counts as one separator;
  - trailing empty lines are dropped;
  - a text with no separator is a single line, even when empty.

## Model

| member | source | states |
|---|---|---|
| PhpTags.OpeningTagLength | php-squid/src/main/java/org/sonar/php/lexer/PHPTagsChannel.java:65 | At a `<?`, the opening tag is the first of `<?php`, `<?=`, `<?` that the text begins with: the text it covers is one of these spellings and lies within the text. |
| PhpTags.OpeningTagIsLongestSpelling | php-squid/src/main/java/org/sonar/php/lexer/PHPTagsChannel.java:65 | The opening tag consumed is one of `<?php`, `<?=`, `<?`, and no spelling the text begins with is longer: `<?php` is never cut into `<?` and `php`. |
| PhpTags.LiteralLength | php-squid/src/main/java/org/sonar/php/lexer/PHPTagsChannel.java:68 | The literal run ends at the end of the text or at the first `<?`, and no `<?` starts inside it. |
| PhpTags.StartLength | php-squid/src/main/java/org/sonar/php/lexer/PHPTagsChannel.java:68 | START consumes at least the whole literal run and never more than the text. |
| PhpTags.StartDecomposition | php-squid/src/main/java/org/sonar/php/lexer/PHPTagsChannel.java:68 | START's match is a `<?`-free literal part followed by an opening tag. The tag is there exactly when the text contains `<?` somewhere. It starts at the first `<?` and is one of the spellings. Without any `<?`, START consumes the whole text and no tag. |
| PhpTags.StartLengthUnique | php-squid/src/main/java/org/sonar/php/lexer/PHPTagsChannel.java:68 | Any split into a `<?`-free literal part followed by the preferred tag (or by nothing, at the end of the text) has exactly START's length: the possessive quantifiers leave no other match. |
| PhpTags.EndLength | php-squid/src/main/java/org/sonar/php/lexer/PHPTagsChannel.java:66-69 | END matches exactly when the text begins with `?>`. It then consumes `?>` plus exactly what START consumes on the rest. |
| PhpTags.ChannelMatch | php-squid/src/main/java/org/sonar/php/lexer/PHPTagsChannel.java:71-72 | A token is produced only for a non-empty match that stays inside the text. Text matched by START is typed `FILE_OPENING_TAG` and text matched by END `INLINE_HTML`. At file start the channel matches exactly when text remains; elsewhere exactly when the text begins with `?>`. |
| PhpTags.FileStartIsPositionZero | php-squid/src/main/java/org/sonar/php/lexer/PHPTagsChannel.java:76 | The reader stands at line 1, column 0 exactly when nothing has been consumed. |
| PhpTags.Consume | php-squid/src/main/java/org/sonar/php/lexer/PHPTagsChannel.java:75-81 | `consume` uses START exactly at line 1, column 0 (the start of the text) and END elsewhere. On a match it appends one token with the matched text, the old position and no trivia, and moves the cursor past the text. Otherwise it changes nothing and returns false. |
| PhpGrammar.Definition | php-squid/src/main/java/org/sonar/php/parser/PHPGrammar.java:337-349 | The rule table: for each rule name, the body and the policy that `create` registers through `expression`, `declaration`, `statement` and `keywords`. It has no contract of its own; the lemmas below state what the rules match. |
| Peg.Match | php-squid/src/main/java/org/sonar/php/parser/PHPGrammar.java:488 | Whatever a rule matches, the leaves of the tree it contributes are exactly the tokens it consumed, in order. This holds with or without `skip` and `skipIfOneChild`. |
| Peg.Splice | php-squid/src/main/java/org/sonar/php/parser/PHPGrammar.java:643 | A kept rule wraps its children in one node. A skipped rule gives its children to its parent. A `skipIfOneChild` rule does so only when it has exactly one child. No policy adds or drops a token. |
| Peg.FirstOfOutcome | php-squid/src/main/java/org/sonar/php/parser/PHPGrammar.java:616-641 | Ordered choice: the outcome is that of the first alternative that does not fail, and the choice fails exactly when every alternative fails. |
| PhpKeywords.BuildKeywords | php-squid/src/main/java/org/sonar/php/parser/PHPGrammar.java:751-757 | The loop copies `keywords[i]` to `rest[i - 2]` for `2 <= i < n`. The choice built from the first two keywords and `rest` has one alternative per keyword, in enumeration order. For the keyword enumeration it is the body of `KEYWORDS`. |
| PhpKeywords.KeywordKinds | php-squid/src/main/java/org/sonar/php/parser/PHPGrammar.java:757 | The alternatives of `KEYWORDS` are token-type terminals that accept every keyword and nothing else. |
| PhpKeywords.KeywordsMatch | php-squid/src/main/java/org/sonar/php/parser/PHPGrammar.java:757 | `KEYWORDS` consumes exactly one token, a leaf under a `KEYWORDS` node, when that token is a keyword. It fails on every other token and at the end of the input. |
| PhpExpressions.LevelRule | php-squid/src/main/java/org/sonar/php/parser/PHPGrammar.java:490-508 | Each of the twelve binary levels is `next (operator next)*` over the next tighter level and collapses into a lone child. The chain runs logical-or, logical-xor, logical-and, bitwise or, xor and and, equality, relational, shift, additive, multiplicative, concatenation, then unary. |
| PhpExpressions.OperatorMatch | php-squid/src/main/java/org/sonar/php/parser/PHPGrammar.java:492-508 | The operator of a level matches exactly one token, one of that level's operator types, and fails on any other token. |
| PhpExpressions.LoopEnd | php-squid/src/main/java/org/sonar/php/parser/PHPGrammar.java:490-508 | A level's repetition takes nothing where none of its operators stands. |
| PhpExpressions.LoopMore | php-squid/src/main/java/org/sonar/php/parser/PHPGrammar.java:490-508 | Where an operator of the level stands and an operand follows, the repetition takes both and continues after the operand. |
| PhpExpressions.LevelFrom | php-squid/src/main/java/org/sonar/php/parser/PHPGrammar.java:490-508 | A level is its first operand followed by its repetition. When the repetition took nothing it is the operand itself; otherwise one node of the level holds the operands and operators left to right. |
| PhpExpressions.LevelSingle | php-squid/src/main/java/org/sonar/php/parser/PHPGrammar.java:490-508 | A level whose first operand is not followed by one of its operators collapses into that operand. |
| PhpExpressions.Climb | php-squid/src/main/java/org/sonar/php/parser/PHPGrammar.java:490-508 | A lone operand with no looser operator after it passes unchanged up through every looser level. |
| PhpExpressions.BinaryPair | php-squid/src/main/java/org/sonar/php/parser/PHPGrammar.java:490-508 | `a op b` with one operator of level `i` and no third operand is one node of level `i` with children `a`, the operator node and `b`. |
| PhpExpressions.OperatorLevelUnique | php-squid/src/main/java/org/sonar/php/parser/PHPGrammar.java:490-517 | Every operator token belongs to exactly one level. None of them continues a postfix expression, accesses a member, or is `?` or an assignment operator. |
| PhpExpressions.NoPostfix | php-squid/src/main/java/org/sonar/php/parser/PHPGrammar.java:449-452 | Where no `++`, `--` or `instanceof` follows, the optional postfix part takes nothing. |
| PhpExpressions.PostfixOfHead | php-squid/src/main/java/org/sonar/php/parser/PHPGrammar.java:438-452 | With no postfix operator after it, a postfix expression is a node holding its head alone. |
| PhpExpressions.NumberPostfix | php-squid/src/main/java/org/sonar/php/parser/PHPGrammar.java:419-452 | A numeric literal is a postfix expression holding a common scalar holding the token. |
| PhpExpressions.UnaryOfPostfix | php-squid/src/main/java/org/sonar/php/parser/PHPGrammar.java:483-488 | Where no prefix operator or cast stands, the unary level is the postfix expression itself, collapsed. |
| PhpExpressions.PrefixFormsRefuse | php-squid/src/main/java/org/sonar/php/parser/PHPGrammar.java:483-487 | The prefix-operator and cast forms of the unary level fail on a token that begins none of them. |
| PhpExpressions.CastRefuses | php-squid/src/main/java/org/sonar/php/parser/PHPGrammar.java:487 | The cast form `(type) expression` of the unary level fails at a token that begins no prefix form; the cast type begins with `(`. |
| PhpExpressions.ExpressionRefuses | php-squid/src/main/java/org/sonar/php/parser/PHPGrammar.java:519 | Given enough fuel, an expression fails at a token that cannot begin one. |
| PhpExpressions.ExpressionFails | php-squid/src/main/java/org/sonar/php/parser/PHPGrammar.java:519 | At a token that cannot begin an expression, matching an expression gives `NoMatch`. |
| PhpExpressions.ReferenceVariableMatch | php-squid/src/main/java/org/sonar/php/parser/PHPGrammar.java:359-362 | A `$name` not followed by an access is a reference variable holding the compound variable. |
| PhpExpressions.PlainVariableMatch | php-squid/src/main/java/org/sonar/php/parser/PHPGrammar.java:363 | A `$name` not followed by an access is a variable without member accesses. |
| PhpExpressions.VariableMatch | php-squid/src/main/java/org/sonar/php/parser/PHPGrammar.java:383-396 | A `$name` not followed by an access is a `VARIABLE` node over the variable without member accesses. |
| PhpExpressions.VariablePostfix | php-squid/src/main/java/org/sonar/php/parser/PHPGrammar.java:438-452 | A `$name` followed by neither an access nor a postfix operator is a postfix expression holding that variable. |
| PhpExpressions.PostfixClimbs | php-squid/src/main/java/org/sonar/php/parser/PHPGrammar.java:483-509 | An operand with no prefix operator before it and no operator of the levels from `i` on after it passes from the postfix level up to level `i` unchanged. |
| PhpExpressions.NumberClimbs | php-squid/src/main/java/org/sonar/php/parser/PHPGrammar.java:419-508 | A number followed by nothing that binds at level `i` or tighter is, at level `i`, the postfix node of the number. |
| PhpExpressions.ConditionalPlain | php-squid/src/main/java/org/sonar/php/parser/PHPGrammar.java:509 | Without a `?` after its operand, the conditional collapses into the operand. |
| PhpExpressions.TernaryTail | php-squid/src/main/java/org/sonar/php/parser/PHPGrammar.java:509 | After the operand: `?`, an optional middle operand, `:` and the last operand, in sequence. |
| PhpExpressions.ConditionalTernary | php-squid/src/main/java/org/sonar/php/parser/PHPGrammar.java:509 | `a ? b : c` and `a ? : c` are one conditional node. It holds the two punctuators as leaves and no node for an omitted middle operand. |
| PhpExpressions.MiddleOmitted | php-squid/src/main/java/org/sonar/php/parser/PHPGrammar.java:509 | A `:` where the middle operand would stand leaves the middle out. |
| PhpExpressions.AssignmentOperatorMatch | php-squid/src/main/java/org/sonar/php/parser/PHPGrammar.java:515 | The assignment operator fails where no assignment operator stands, and takes `=` as a node holding the token. |
| PhpExpressions.NoAssignmentOperator | php-squid/src/main/java/org/sonar/php/parser/PHPGrammar.java:515-517 | Where no `=`, compound or logical assignment operator stands, the assignment-operator rule refuses the token. |
| PhpExpressions.ReferenceAssignmentFails | php-squid/src/main/java/org/sonar/php/parser/PHPGrammar.java:512 | The reference alternative `variable = & …` is tried first and fails unless a variable is followed by `=` and `&`. |
| PhpExpressions.ReferenceAssignmentFailsAfterVariable | php-squid/src/main/java/org/sonar/php/parser/PHPGrammar.java:512 | The same, for a variable followed by `=` but no `&`. |
| PhpExpressions.AssignmentOfConditional | php-squid/src/main/java/org/sonar/php/parser/PHPGrammar.java:511-514 | Without an assignment operator after it, the assignment is the conditional. The second alternative fails at the missing operator, the third matches, and the lone child collapses. |
| PhpExpressions.AssignmentOfEquals | php-squid/src/main/java/org/sonar/php/parser/PHPGrammar.java:511-514 | `a = b` is an assignment node over the conditional, the `=` node and an assignment again, so the right operand recurses (right associativity). |
| PhpExpressions.ExpressionOfAssignment | php-squid/src/main/java/org/sonar/php/parser/PHPGrammar.java:519 | The expression rule keeps its own node around the assignment. |
| PhpExpressions.ExpressionOfOr | php-squid/src/main/java/org/sonar/php/parser/PHPGrammar.java:509-519 | An operand of the logical-or level followed by neither `?` nor an assignment operator is the whole expression. The conditional and the assignment collapse; only the expression node is added. |
| PhpExpressions.AssignmentOfOperand | php-squid/src/main/java/org/sonar/php/parser/PHPGrammar.java:488-514 | A postfix operand with no operator of any kind after it is a whole assignment on its own. Every level collapses into it. |
| PhpExpressionExamples.SumOfProductTree | php-squid/src/main/java/org/sonar/php/parser/PHPGrammar.java:491-493 | `a + b * c`: the multiplicative node `b * c` is the right operand of the additive node, inside one expression node. |
| PhpExpressionExamples.DifferenceIsFlat | php-squid/src/main/java/org/sonar/php/parser/PHPGrammar.java:493-494 | `a - b - c`: a single additive node with the three operands and two operators in source order. |
| PhpExpressionExamples.ChainedAssignmentTree | php-squid/src/main/java/org/sonar/php/parser/PHPGrammar.java:511-514 | `$a = $b = n`: the right operand of the outer assignment is the assignment `$b = n`. |
| PhpExpressionExamples.ShortTernaryTree | php-squid/src/main/java/org/sonar/php/parser/PHPGrammar.java:509 | `a ? : b`: a conditional node with four children, the two operands and the two punctuators. |
| PhpExpressionExamples.NumberAssignment | php-squid/src/main/java/org/sonar/php/parser/PHPGrammar.java:511-514 | A number that ends the input is a whole assignment on its own. |
| PhpExpressionExamples.ExamplesInGrammar | php-squid/src/main/java/org/sonar/php/parser/PHPGrammar.java:490-519 | The four trees above hold for the grammar's own rule table: the sum of a product, the chained assignment, the short ternary and the flat difference. |
| PhpStatements.EosMatch | php-squid/src/main/java/org/sonar/php/parser/PHPGrammar.java:643 | EOS takes `;` or an inline-HTML token as a bare leaf (the rule is skipped) and fails on anything else. |
| PhpStatements.StatementRefuses | php-squid/src/main/java/org/sonar/php/parser/PHPGrammar.java:616-641 | Every form of `STATEMENT` fails at a token that cannot begin a statement (a `}`, an `endif`, the end of the file). |
| PhpStatements.InnerStatementListRefuses | php-squid/src/main/java/org/sonar/php/parser/PHPGrammar.java:743-748 | A statement list cannot begin where none of its entries can. |
| PhpStatements.TopStatementRefuses | php-squid/src/main/java/org/sonar/php/parser/PHPGrammar.java:581-593 | The top-level statement list cannot begin where none of its entries can, for example at the end of the file. |
| PhpStatements.ClosingTokenAt | php-squid/src/main/java/org/sonar/php/parser/PHPGrammar.java:743-748 | `}`, `endif`, `elseif`, `else` and the end of the file (with a text that is none of the scalar words) begin no statement and no entry of any statement list. |
| PhpStatements.ParenthesisedExpression | php-squid/src/main/java/org/sonar/php/parser/PHPGrammar.java:353 | `( e )`, with `e` not a `yield` expression, is a parenthesised-expression node holding `(`, the expression and `)`. |
| PhpStatements.NumberCondition | php-squid/src/main/java/org/sonar/php/parser/PHPGrammar.java:353 | `( n )` is a parenthesised expression holding the number's expression. |
| PhpStatements.AlternativeIfNeedsColon | php-squid/src/main/java/org/sonar/php/parser/PHPGrammar.java:655-656 | The alternative `if` fails when no `:` follows its condition. |
| PhpStatements.IfClausesAbsent | php-squid/src/main/java/org/sonar/php/parser/PHPGrammar.java:650 | Where neither `elseif` nor `else` follows, both optional clause parts of an `if` take nothing. |
| PhpStatements.IfStatementMatch | php-squid/src/main/java/org/sonar/php/parser/PHPGrammar.java:650 | `if (c) s`, with no `elseif` or `else` after it, is an `IF_STATEMENT` node with the keyword, the condition and the statement. |
| PhpStatements.StatementOfIf | php-squid/src/main/java/org/sonar/php/parser/PHPGrammar.java:616-621 | At an `if` whose alternative form fails, `STATEMENT` passes over the block, the label and `throw` and takes `IF_STATEMENT`. |
| PhpStatements.StatementOfAlternativeIf | php-squid/src/main/java/org/sonar/php/parser/PHPGrammar.java:616-619 | At an `if` whose alternative form matches, `STATEMENT` takes that form: it is tried before `IF_STATEMENT`. |
| PhpStatements.AlternativeIfEnd | php-squid/src/main/java/org/sonar/php/parser/PHPGrammar.java:655-656 | After the `:` of an alternative `if`, where no statement list begins: no `elseif` or `else` clause, then `endif` and EOS. |
| PhpStatements.AlternativeIfMatch | php-squid/src/main/java/org/sonar/php/parser/PHPGrammar.java:655-656 | `if (c): endif;` is an `ALTERNATIVE_IF_STATEMENT` node holding `if`, the condition, `:`, `endif` and `;`. |
| PhpStatements.EmptyBlock | php-squid/src/main/java/org/sonar/php/parser/PHPGrammar.java:648 | `{ }` is a block holding its two braces. |
| PhpStatements.StatementOfBlock | php-squid/src/main/java/org/sonar/php/parser/PHPGrammar.java:616-617 | A block is taken by `STATEMENT` as its first alternative. |
| PhpStatements.TopStatementOfStatement | php-squid/src/main/java/org/sonar/php/parser/PHPGrammar.java:583-593 | A top-level statement that begins with no declaration keyword is a `STATEMENT` wrapped in a `TOP_STATEMENT` node. |
| PhpStatements.CompilationUnitNeedsOpeningTag | php-squid/src/main/java/org/sonar/php/parser/PHPGrammar.java:340 | A compilation unit fails unless the file begins with its opening tag. |
| PhpStatements.CompilationUnitMatch | php-squid/src/main/java/org/sonar/php/parser/PHPGrammar.java:340 | The opening tag, whatever the optional top-statement list matches, then the end of file: one `COMPILATION_UNIT` node holding all three. |
| PhpStatementExamples.BracedIfFromParts | php-squid/src/main/java/org/sonar/php/parser/PHPGrammar.java:616-621 | `if ( n ) { }`: the alternative form fails at the `{`, and the statement is a braced `IF_STATEMENT`. |
| PhpStatementExamples.AlternativeIfFromParts | php-squid/src/main/java/org/sonar/php/parser/PHPGrammar.java:616-621 | `if ( n ) : endif ;` is an `ALTERNATIVE_IF_STATEMENT`, not an `IF_STATEMENT`. |
| PhpStatementExamples.BracedIfStatement | php-squid/src/main/java/org/sonar/php/parser/PHPGrammar.java:650 | The braced `if` is a statement node over `IF_STATEMENT` with the condition and an empty block. |
| PhpStatementExamples.AlternativeIfStatementTree | php-squid/src/main/java/org/sonar/php/parser/PHPGrammar.java:655-656 | The alternative `if` is a statement node over `ALTERNATIVE_IF_STATEMENT`, with the `;` as a leaf. |
| PhpStatementExamples.EmptyFileTree | php-squid/src/main/java/org/sonar/php/parser/PHPGrammar.java:340 | `<?php` and nothing else is a compilation unit holding only the opening tag and the end of file. |
| PhpStatementExamples.StatementExamplesInGrammar | php-squid/src/main/java/org/sonar/php/parser/PHPGrammar.java:616-656 | Both forms of `if` and the empty file for the grammar's own rule table: both `if` forms are accepted and give distinct rules. |
| FileLines.Visited | php-squid/src/main/java/org/sonar/php/metrics/FileLinesVisitor.java:57-69 | A counted token adds its line to the code lines and the start line of each comment trivia to the comment lines. Other trivia add nothing. The end-of-file token and the opening tag change nothing. |
| FileLines.CommentLines | php-squid/src/main/java/org/sonar/php/metrics/FileLinesVisitor.java:63-68 | The comment lines of a token are exactly the start lines of its comment trivia. |
| FileLines.VisitedTwice | php-squid/src/main/java/org/sonar/php/metrics/FileLinesVisitor.java:49-50 | Visiting the same token twice leaves the same sets as visiting it once. |
| FileLines.VisitedCommute | php-squid/src/main/java/org/sonar/php/metrics/FileLinesVisitor.java:49-50 | The order in which two tokens are visited does not matter. |
| FileLines.VisitedAllLines | php-squid/src/main/java/org/sonar/php/metrics/FileLinesVisitor.java:57-69 | After visiting a token list, a line is a code line exactly when a counted token lies on it. It is a comment line exactly when a comment of a counted token starts on it. |
| FileLines.FlagsUpTo | php-squid/src/main/java/org/sonar/php/metrics/FileLinesVisitor.java:77-80 | Exactly one entry per line `1..n`, in order. The code flag is 1 if the line is a code line, 0 otherwise; the comment flag likewise for comment lines. |
| FileLines.FlagsIgnoreOutsideLines | php-squid/src/main/java/org/sonar/php/metrics/FileLinesVisitor.java:77 | Lines of the sets outside `1..n` have no effect on the flags emitted. |
| FileLines.FileLinesVisitor.constructor | php-squid/src/main/java/org/sonar/php/metrics/FileLinesVisitor.java:49-50 | Both sets start empty. |
| FileLines.FileLinesVisitor.VisitToken | php-squid/src/main/java/org/sonar/php/metrics/FileLinesVisitor.java:57-69 | The new sets are `Visited` of the old sets and the token. |
| FileLines.FileLinesVisitor.LeaveFile | php-squid/src/main/java/org/sonar/php/metrics/FileLinesVisitor.java:71-85 | Returns the flags of lines `1..fileLength` computed from the sets as they were, then empties both sets. |
| CommentedOutCode.IsInlineComment | php-checks/src/main/java/org/sonar/php/checks/CommentedOutCodeCheck.java:106-108 | A trivia is a `//` comment when its text begins with `//`. |
| CommentedOutCode.IsPhpDoc | php-checks/src/main/java/org/sonar/php/checks/CommentedOutCodeCheck.java:110-112 | A trivia is a documentation comment when its text begins with `/**`. |
| CommentedOutCode.PreviousLineIsCommentedCode | php-checks/src/main/java/org/sonar/php/checks/CommentedOutCodeCheck.java:97-100 | The suppression rule holds when there is a previous trivia, the trivia starts on the line just after the previous one's start line, and the previous trivia's raw text looks like code. |
| CommentedOutCode.PhpDocIsNotInline | php-checks/src/main/java/org/sonar/php/checks/CommentedOutCodeCheck.java:106-112 | A documentation comment never starts with `//`. |
| CommentedOutCode.PiecesAtSeparator | php-checks/src/main/java/org/sonar/php/checks/CommentedOutCodeCheck.java:51 | `\r\n`, `\n`, and a `\r` not followed by `\n` each end one line, the text before them. |
| CommentedOutCode.PiecesAreLines | php-checks/src/main/java/org/sonar/php/checks/CommentedOutCodeCheck.java:51 | No piece contains a line break. |
| CommentedOutCode.PiecesLoseOnlyBreaks | php-checks/src/main/java/org/sonar/php/checks/CommentedOutCodeCheck.java:51 | Put back together, the pieces are the text with its line breaks removed. |
| CommentedOutCode.DroppedAreEmpty | php-checks/src/main/java/org/sonar/php/checks/CommentedOutCodeCheck.java:82 | Only a trailing run of empty lines is dropped. |
| CommentedOutCode.SplitLines | php-checks/src/main/java/org/sonar/php/checks/CommentedOutCodeCheck.java:82 | The lines of a comment as `split` on the separator pattern gives them: the whole text when it holds no separator, otherwise the pieces between separators without the trailing empty ones. |
| CommentedOutCode.SplitLinesLoseOnlyBreaks | php-checks/src/main/java/org/sonar/php/checks/CommentedOutCodeCheck.java:82 | The lines of a block comment contain no line break, and together they are the comment's contents without line breaks. |
| CommentedOutCode.FirstCodeLine | php-checks/src/main/java/org/sonar/php/checks/CommentedOutCodeCheck.java:84-89 | The index found is that of a line that looks like code, with none before it. None is found exactly when no line looks like code. |
| CommentedOutCode.BlockIssues | php-checks/src/main/java/org/sonar/php/checks/CommentedOutCodeCheck.java:84-89 | A block comment raises at most one issue. |
| CommentedOutCode.TriviaIssues | php-checks/src/main/java/org/sonar/php/checks/CommentedOutCodeCheck.java:74-91 | One trivia raises at most one issue. |
| CommentedOutCode.TriviaIssuesMeaning | php-checks/src/main/java/org/sonar/php/checks/CommentedOutCodeCheck.java:74-91 | Three cases. A `//` comment is reported on its own line exactly when its contents look like code and the suppression rule does not apply. A documentation comment is never reported. Any other comment is reported exactly when one of its lines looks like code, at its start line plus the index of the first such line. |
| CommentedOutCode.TokenIssues | php-checks/src/main/java/org/sonar/php/checks/CommentedOutCodeCheck.java:65-72 | The issues of a token's trivia, each examined after the one before it: at most one issue per trivia. |
| CommentedOutCode.TokenIssuesSplit | php-checks/src/main/java/org/sonar/php/checks/CommentedOutCodeCheck.java:65-72 | A token's issues are those of its trivia in order, each examined with the trivia before it. The first trivia is examined with none, and later trivia do not affect earlier issues. |
| CommentedOutCode.ConsecutiveInlineSuppressed | php-checks/src/main/java/org/sonar/php/checks/CommentedOutCodeCheck.java:97-100 | A `//` comment on the line just below a trivia whose raw text looks like code raises nothing. |
| CommentedOutCode.IssuesBelowTriviaStart | php-checks/src/main/java/org/sonar/php/checks/CommentedOutCodeCheck.java:78-86 | Every reported line is at or below the start line of one of the token's trivia. |
| CommentedOutCode.CommentedOutCodeCheck.CheckTrivia | php-checks/src/main/java/org/sonar/php/checks/CommentedOutCodeCheck.java:74-91 | Appends exactly the trivia's issues to the issues reported so far. |
| CommentedOutCode.CommentedOutCodeCheck.ReportFirstCodeLine | php-checks/src/main/java/org/sonar/php/checks/CommentedOutCodeCheck.java:84-89 | The loop with `break` appends the start line plus the index of the first line that looks like code, or nothing when no line does. |
| CommentedOutCode.CommentedOutCodeCheck.VisitToken | php-checks/src/main/java/org/sonar/php/checks/CommentedOutCodeCheck.java:65-72 | Appends exactly the issues of the token's trivia, examined in order with `previousTrivia`. |
| LeftCurlyBrace.Subscribed | php-checks/src/main/java/org/sonar/php/checks/LeftCurlyBraceStartsLineCheck.java:35-37 | The check subscribes to the `{` punctuator only. |
| LeftCurlyBrace.IsFirstOnLine | php-checks/src/main/java/org/sonar/php/checks/LeftCurlyBraceStartsLineCheck.java:46-48 | A brace is first on its line when the last token before it lies on another line. |
| LeftCurlyBrace.IsOnSameLineThanRightCurlyBrace | php-checks/src/main/java/org/sonar/php/checks/LeftCurlyBraceStartsLineCheck.java:50-52 | The first `}` among the brace's siblings lies on the brace's line. |
| LeftCurlyBrace.VisitNode | php-checks/src/main/java/org/sonar/php/checks/LeftCurlyBraceStartsLineCheck.java:40-44 | An issue exactly for a `{` whose block does not close on its line and which does not start its line. The issue is on the brace's line. |
| LeftCurlyBrace.FirstOnLineNeverReported | php-checks/src/main/java/org/sonar/php/checks/LeftCurlyBraceStartsLineCheck.java:46-48 | A brace preceded by a token on another line is never reported. |
| LeftCurlyBrace.OneLineBlockNeverReported | php-checks/src/main/java/org/sonar/php/checks/LeftCurlyBraceStartsLineCheck.java:50-52 | A brace whose first `}` sibling is on its line is never reported. |
| LeftCurlyBrace.VerdictIsRelative | php-checks/src/main/java/org/sonar/php/checks/LeftCurlyBraceStartsLineCheck.java:46-52 | Moving all three lines by `d` moves the issue by `d` and creates or removes none: only the relative lines matter. |
| LeftCurlyBrace.Issues | php-checks/src/main/java/org/sonar/php/checks/LeftCurlyBraceStartsLineCheck.java:35-44 | At most one issue per visited node. |
| LeftCurlyBrace.OnlyBracesCount | php-checks/src/main/java/org/sonar/php/checks/LeftCurlyBraceStartsLineCheck.java:35-37 | Only `{` nodes are inspected: dropping every other node leaves the issues unchanged. |

## Left out

- The ordinary PHP lexer is not part of this model. This covers keywords, punctuators, literals, comments and longest-match punctuator lexing. Tokens are values of an abstract kind enumeration with a text, a line, a column and trivia.
- The `PHPKeyword` and `PHPPunctuator` enumerations are not part of this model. The keyword enumeration is declared here in alphabetical order, so the order of the `KEYWORDS` alternatives is that order.
- The SSLR regular-expression channel and `CodeReader` are represented by this model's own definitions, not modelled as library code:
  - the regular expressions are the functions `StartLength` and `EndLength`;
  - the reader keeps a cursor, a line and a column, with `\r\n`, `\n` and `\r` as line ends.
- The grammar engine (`LexerfulGrammarBuilder`) is replaced by module `Peg`. Its error reporting and its memoisation are not modelled. An empty iteration of a repetition is the outcome `EmptyLoop` instead of an exception.
- Peg.Match: takes a fuel bound that each rule reference spends. A parse that needs more fuel gives `OutOfFuel`, which is never treated as a failed match. `MatchFuelMonotone` shows that more fuel never changes an outcome that completed, but deep inputs need large fuel.
- Two rule constants that the grammar's enumeration declares but never defines, `ALTERNATIVE_DO_WHILE_STATEMENT` and `STATIC_MEMBER`, have no rule name here. The alternatives of `POSTFIX_EXPR` and `UNARY_EXPR` that carry `TODO` comments are modelled as written, without the missing forms.
- Most grammar properties are stated for parts of the token list described by shape predicates, not as a full characterisation of the language. Seven parse trees are shown for the grammar's own rule table: four expression trees (`ExamplesInGrammar`), the two `if` forms and the empty file (`StatementExamplesInGrammar`). A file with several statements is not among them.
- PhpExpressions.AssignmentOperatorMatch: states only the no-operator case and the `=` case. The compound and logical assignment operators are covered only by their refusal lemmas.
- AST navigation (`getPreviousAstNode`, `getParent`, `getFirstChild`) is not modelled. The left-curly check receives three line numbers: the brace's, the first `}` sibling's and the previous token's. A brace with no previous node or no `}` sibling (a null dereference in the source) is not modelled.
- The host services are not modelled:
  - `FileLinesContext`, `save` and `PHPMetric.LINES`: the line count is an input and the flags are returned as a sequence;
  - `createLineViolation`: issues are line numbers appended to a sequence.
- The statistical `CodeRecognizer` (with its floating-point thresholds) and `CommentAnalyser.getContents` are parameters of the check: `isCode` and `contents`.
- The metrics visitor counts the start line of comment trivia only, following the source's `isComment` test. Preprocessor and skipped-text trivia are never counted. The commented-out-code check examines every trivia it is given, whatever its kind, as the source does.
- PhpTags.Consume: the token it appends carries no trivia. The lexer attaches trivia collected before a token to that token, but no comment channel is part of this model, so none are ever pending when the tag channel matches.
