/**
 * The check that an opening curly brace starts its line. It looks at `{`
 * punctuators only, and only through three line numbers: the brace's own,
 * the line of the first `}` among the brace's siblings, and the line of the
 * last token before the brace.
 */
module LeftCurlyBrace {
  import opened Wrappers
  import opened Tokens

  /** The lines the check reads around one `{`. */
  datatype BraceLines = BraceLines(brace: int, closingBrace: int, previousToken: int)

  /** The brace is the first token of its line: the token before it starts on another line. */
  predicate IsFirstOnLine(b: BraceLines) {
    b.previousToken != b.brace
  }

  /** The block opened by the brace closes on the brace's own line. */
  predicate IsOnSameLineThanRightCurlyBrace(b: BraceLines) {
    b.closingBrace == b.brace
  }

  /** The node types the check subscribes to: the `{` punctuator alone. */
  predicate Subscribed(kind: TokenKind) {
    kind == Punct(LCurlyBrace)
  }

  /**
   * The issue raised for a node of type `kind`: none for anything but `{`;
   * for a `{`, one issue on the brace's line exactly when the block does not
   * close on that line and the brace does not start it.
   */
  function VisitNode(kind: TokenKind, b: BraceLines): (issue: Option<int>)
    ensures issue.Some? ==> issue.value == b.brace
    ensures issue.Some? <==> kind == Punct(LCurlyBrace) && b.closingBrace != b.brace && b.previousToken == b.brace
  {
    if Subscribed(kind) && !IsOnSameLineThanRightCurlyBrace(b) && !IsFirstOnLine(b) then Some(b.brace) else None
  }

  /** A brace that starts its line is never reported, whatever the other lines. */
  lemma FirstOnLineNeverReported(b: BraceLines)
    requires b.previousToken != b.brace
    ensures VisitNode(Punct(LCurlyBrace), b) == None
  {
  }

  /** A block opened and closed on one line is never reported, whatever the line of the token before. */
  lemma OneLineBlockNeverReported(b: BraceLines)
    requires b.closingBrace == b.brace
    ensures VisitNode(Punct(LCurlyBrace), b) == None
  {
  }

  /** The lines moved by `d`. */
  function Shifted(b: BraceLines, d: int): (s: BraceLines)
    ensures s.brace - b.brace == s.closingBrace - b.closingBrace == s.previousToken - b.previousToken == d
  {
    BraceLines(b.brace + d, b.closingBrace + d, b.previousToken + d)
  }

  /**
   * Only the relative position of the three lines matters: moving the code
   * by `d` lines moves the issue by `d` lines and creates or removes none.
   */
  lemma VerdictIsRelative(kind: TokenKind, b: BraceLines, d: int)
    ensures VisitNode(kind, Shifted(b, d)).Some? <==> VisitNode(kind, b).Some?
    ensures VisitNode(kind, b).Some? ==> VisitNode(kind, Shifted(b, d)) == Some(VisitNode(kind, b).value + d)
  {
  }

  /** The issues of a sequence of visited nodes, in visiting order: one per reported brace, at that brace. */
  function Issues(nodes: seq<(TokenKind, BraceLines)>): (lines: seq<int>)
    ensures |lines| <= |nodes|
  {
    if nodes == [] then []
    else
      (match VisitNode(nodes[0].0, nodes[0].1) case Some(l) => [l] case None => [])
      + Issues(nodes[1..])
  }

  /** Nodes other than `{` contribute no issue: dropping them leaves the issues unchanged. */
  lemma {:induction false} OnlyBracesCount(nodes: seq<(TokenKind, BraceLines)>)
    ensures Issues(nodes) == Issues(BracesOnly(nodes))
  {
    if nodes != [] {
      OnlyBracesCount(nodes[1..]);
      if Subscribed(nodes[0].0) {
        assert BracesOnly(nodes) == [nodes[0]] + BracesOnly(nodes[1..]);
        assert BracesOnly(nodes)[1..] == BracesOnly(nodes[1..]);
      } else {
        assert BracesOnly(nodes) == BracesOnly(nodes[1..]);
        assert Issues(nodes) == Issues(nodes[1..]);
      }
    }
  }

  /** The `{` nodes among `nodes`, in order. */
  function BracesOnly(nodes: seq<(TokenKind, BraceLines)>): (r: seq<(TokenKind, BraceLines)>)
    ensures |r| <= |nodes|
    ensures forall i :: 0 <= i < |r| ==> Subscribed(r[i].0)
  {
    if nodes == [] then []
    else (if Subscribed(nodes[0].0) then [nodes[0]] else []) + BracesOnly(nodes[1..])
  }
}
