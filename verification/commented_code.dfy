/**
 * The commented-out-code check. Each trivia of a token is examined together
 * with the trivia just before it: a `//` comment is reported on its own line
 * when its contents look like code, unless the comment just above it (on the
 * preceding line) already looked like code; a documentation comment (slash and two stars) is
 * never reported; any other comment is cut into lines and reported once, on
 * its first line that looks like code.
 *
 * Whether a text looks like code is decided by a statistical recognizer, and
 * the contents of a comment are extracted by the host's comment analyser:
 * both are parameters of the check (`isCode`, `contents`).
 */
module CommentedOutCode {
  import opened Wrappers
  import opened Tokens

  predicate IsPrefix(p: string, s: string) {
    |p| <= |s| && s[..|p|] == p
  }

  /** A comment whose text starts with `//`. */
  predicate IsInlineComment(t: Trivia) {
    IsPrefix("//", t.value)
  }

  /** A documentation comment: its text starts with a slash and two stars. */
  predicate IsPhpDoc(t: Trivia) {
    IsPrefix("/**", t.value)
  }

  /** A documentation comment is never a `//` comment, so it is never examined as one. */
  lemma PhpDocIsNotInline(t: Trivia)
    ensures IsPhpDoc(t) ==> !IsInlineComment(t)
  {
    if IsPhpDoc(t) {
      assert t.value[1] == '*';
    }
  }

  /**
   * The suppression rule: there is a previous trivia, it starts on the line
   * just above `t`, and its raw text (not its extracted contents) looks like code.
   */
  predicate PreviousLineIsCommentedCode(isCode: string -> bool, t: Trivia, previous: Option<Trivia>) {
    previous.Some? && t.line == previous.value.line + 1 && isCode(previous.value.value)
  }

  // Cutting a comment into lines, at `\r\n`, `\n` or `\r`.

  predicate IsBreak(c: char) {
    c == '\n' || c == '\r'
  }

  /** The index of the first line-break character of `s`, or `|s|` when there is none. */
  function FirstBreak(s: string): (k: nat)
    ensures k <= |s|
    ensures k < |s| ==> IsBreak(s[k])
    ensures forall j :: 0 <= j < k ==> !IsBreak(s[j])
  {
    if s == [] then 0 else if IsBreak(s[0]) then 0 else 1 + FirstBreak(s[1..])
  }

  /** The length of the line separator at `k`: `\r\n` is one separator, a lone `\r` or `\n` another. */
  function SeparatorLength(s: string, k: nat): nat
    requires k < |s|
  {
    if s[k] == '\r' && k + 1 < |s| && s[k + 1] == '\n' then 2 else 1
  }

  /** A text with no line-break character. */
  predicate OneLine(s: string) {
    forall j :: 0 <= j < |s| ==> !IsBreak(s[j])
  }

  /** The texts between the separators of `s`, in order, the empty ones included. */
  function Pieces(s: string): seq<string>
    decreases |s|
  {
    var k := FirstBreak(s);
    if k == |s| then [s] else [s[..k]] + Pieces(s[k + SeparatorLength(s, k)..])
  }

  /**
   * The separators: `\r\n` is cut as one separator, and so are a lone `\n`
   * and a `\r` that no `\n` follows; the text before the first separator is
   * the first piece.
   */
  lemma PiecesAtSeparator(x: string, sep: string, y: string)
    requires OneLine(x)
    requires sep == "\r\n" || sep == "\n" || (sep == "\r" && (y == [] || y[0] != '\n'))
    ensures Pieces(x + sep + y) == [x] + Pieces(y)
  {
    var s := x + sep + y;
    FirstBreakAfterLine(x, sep, y);
    SeparatorAfterLine(x, sep, y);
    assert s[..|x|] == x;
    assert s[|x| + |sep|..] == y;
  }

  /** The first break of a line followed by a separator is the separator's first character. */
  lemma FirstBreakAfterLine(x: string, sep: string, y: string)
    requires OneLine(x) && sep != [] && IsBreak(sep[0])
    ensures FirstBreak(x + sep + y) == |x|
  {
    var s := x + sep + y;
    assert s[|x|] == sep[0];
    assert forall j :: 0 <= j < |x| ==> s[j] == x[j];
  }

  /** The separator that starts after the line `x` is `sep` itself. */
  lemma SeparatorAfterLine(x: string, sep: string, y: string)
    requires sep == "\r\n" || sep == "\n" || (sep == "\r" && (y == [] || y[0] != '\n'))
    ensures SeparatorLength(x + sep + y, |x|) == |sep|
  {
    var s := x + sep + y;
    assert s[|x|] == sep[0];
    if |sep| == 2 {
      assert s[|x| + 1] == sep[1];
    } else if y != [] {
      assert s[|x| + 1] == y[0];
    }
  }

  /** No piece holds a line break. */
  lemma {:induction false} PiecesAreLines(s: string)
    ensures forall i :: 0 <= i < |Pieces(s)| ==> OneLine(Pieces(s)[i])
    decreases |s|
  {
    var k := FirstBreak(s);
    if k < |s| {
      PiecesAreLines(s[k + SeparatorLength(s, k)..]);
    }
  }

  /** `ps` without its trailing empty texts. */
  function DropTrailingEmpty(ps: seq<string>): seq<string> {
    if ps != [] && ps[|ps| - 1] == "" then DropTrailingEmpty(ps[..|ps| - 1]) else ps
  }

  /** What is dropped is exactly the run of empty texts at the end. */
  lemma {:induction false} DroppedAreEmpty(ps: seq<string>)
    ensures var r := DropTrailingEmpty(ps);
      && |r| <= |ps| && r == ps[..|r|]
      && (r == [] || r[|r| - 1] != "")
      && forall i :: |r| <= i < |ps| ==> ps[i] == ""
  {
    if ps != [] && ps[|ps| - 1] == "" {
      DroppedAreEmpty(ps[..|ps| - 1]);
    }
  }

  /**
   * The lines of a comment as the separator pattern's `split` gives them: the
   * whole text when it holds no separator; otherwise the pieces between
   * separators with the trailing empty ones removed.
   */
  function SplitLines(s: string): seq<string> {
    if FirstBreak(s) == |s| then [s] else DropTrailingEmpty(Pieces(s))
  }

  /** The characters of `s` that are not line breaks, in order. */
  function WithoutBreaks(s: string): string {
    if s == [] then [] else (if IsBreak(s[0]) then [] else [s[0]]) + WithoutBreaks(s[1..])
  }

  /** The texts of `ps`, one after another. */
  function Concat(ps: seq<string>): string {
    if ps == [] then [] else ps[0] + Concat(ps[1..])
  }

  lemma {:induction false} WithoutBreaksAppend(a: string, b: string)
    ensures WithoutBreaks(a + b) == WithoutBreaks(a) + WithoutBreaks(b)
  {
    if a == [] {
      assert a + b == b;
    } else {
      assert (a + b)[0] == a[0];
      assert (a + b)[1..] == a[1..] + b;
      WithoutBreaksAppend(a[1..], b);
    }
  }

  lemma {:induction false} WithoutBreaksOneLine(s: string)
    requires OneLine(s)
    ensures WithoutBreaks(s) == s
  {
    if s != [] {
      WithoutBreaksOneLine(s[1..]);
    }
  }

  lemma {:induction false} WithoutBreaksOfBreaks(s: string)
    requires forall j :: 0 <= j < |s| ==> IsBreak(s[j])
    ensures WithoutBreaks(s) == []
  {
    if s != [] {
      WithoutBreaksOfBreaks(s[1..]);
    }
  }

  /** Cutting loses only the separators: the pieces, put back together, are the text without its line breaks. */
  lemma {:induction false} PiecesLoseOnlyBreaks(s: string)
    ensures Concat(Pieces(s)) == WithoutBreaks(s)
    decreases |s|
  {
    var k := FirstBreak(s);
    if k == |s| {
      WithoutBreaksOneLine(s);
      ConcatCons(s, []);
    } else {
      var n := SeparatorLength(s, k);
      PiecesLoseOnlyBreaks(s[k + n..]);
      LineBeforeBreak(s, k);
      SeparatorHasNoText(s, k);
      CutInThree(s, k, n);
      WithoutBreaksAround(s[..k], s[k..k + n], s[k + n..]);
      ConcatCons(s[..k], Pieces(s[k + n..]));
    }
  }

  /** The text before the first line break keeps all its characters. */
  lemma LineBeforeBreak(s: string, k: nat)
    requires k == FirstBreak(s)
    ensures WithoutBreaks(s[..k]) == s[..k]
  {
    assert forall j :: 0 <= j < k ==> s[..k][j] == s[j];
    WithoutBreaksOneLine(s[..k]);
  }

  /** A separator keeps none of its characters. */
  lemma SeparatorHasNoText(s: string, k: nat)
    requires k < |s| && IsBreak(s[k])
    ensures WithoutBreaks(s[k..k + SeparatorLength(s, k)]) == []
  {
    var sep := s[k..k + SeparatorLength(s, k)];
    assert forall j :: 0 <= j < |sep| ==> sep[j] == s[k + j];
    WithoutBreaksOfBreaks(sep);
  }

  lemma CutInThree(s: string, k: nat, n: nat)
    requires k + n <= |s|
    ensures s == s[..k] + (s[k..k + n] + s[k + n..])
  {
  }

  lemma WithoutBreaksAround(line: string, sep: string, rest: string)
    requires WithoutBreaks(line) == line && WithoutBreaks(sep) == []
    ensures WithoutBreaks(line + (sep + rest)) == line + WithoutBreaks(rest)
  {
    WithoutBreaksAppend(sep, rest);
    assert WithoutBreaks(sep + rest) == WithoutBreaks(rest);
    WithoutBreaksAppend(line, sep + rest);
  }

  lemma AppendAssociates(a: seq<int>, b: seq<int>, c: seq<int>)
    ensures (a + b) + c == a + (b + c)
  {
  }

  lemma ConcatCons(p: string, ps: seq<string>)
    ensures Concat([p] + ps) == p + Concat(ps)
  {
    assert ([p] + ps)[1..] == ps;
  }

  lemma {:induction false} ConcatOfEmpties(ps: seq<string>)
    requires forall i :: 0 <= i < |ps| ==> ps[i] == ""
    ensures Concat(ps) == ""
  {
    if ps != [] {
      ConcatOfEmpties(ps[1..]);
    }
  }

  lemma {:induction false} ConcatAppend(a: seq<string>, b: seq<string>)
    ensures Concat(a + b) == Concat(a) + Concat(b)
  {
    if a == [] {
      assert a + b == b;
    } else {
      var ab := a + b;
      assert ab[0] == a[0] && ab[1..] == a[1..] + b;
      ConcatAppend(a[1..], b);
      assert Concat(ab) == a[0] + Concat(a[1..] + b);
      assert a[0] + (Concat(a[1..]) + Concat(b)) == (a[0] + Concat(a[1..])) + Concat(b);
    }
  }

  /**
   * The lines of a comment hold no line break, and together they are the
   * comment without its line breaks: dropping the trailing empty pieces loses
   * no character.
   */
  lemma SplitLinesLoseOnlyBreaks(s: string)
    ensures forall i :: 0 <= i < |SplitLines(s)| ==> OneLine(SplitLines(s)[i])
    ensures Concat(SplitLines(s)) == WithoutBreaks(s)
  {
    PiecesLoseOnlyBreaks(s);
    PiecesAreLines(s);
    if FirstBreak(s) < |s| {
      DroppingKeepsText(Pieces(s));
    } else {
      assert Pieces(s) == [s];
    }
  }

  /** Dropping the trailing empty texts keeps a prefix of the texts and their concatenation. */
  lemma DroppingKeepsText(ps: seq<string>)
    ensures |DropTrailingEmpty(ps)| <= |ps|
    ensures forall i :: 0 <= i < |DropTrailingEmpty(ps)| ==> DropTrailingEmpty(ps)[i] == ps[i]
    ensures Concat(DropTrailingEmpty(ps)) == Concat(ps)
  {
    var r := DropTrailingEmpty(ps);
    DroppedAreEmpty(ps);
    assert ps == r + ps[|r|..];
    ConcatAppend(r, ps[|r|..]);
    ConcatOfEmpties(ps[|r|..]);
  }

  /** The index of the first line that looks like code, if any. */
  function FirstCodeLine(isCode: string -> bool, lines: seq<string>): (r: Option<nat>)
    ensures r.Some? ==> r.value < |lines| && isCode(lines[r.value])
    ensures r.Some? ==> forall j :: 0 <= j < r.value ==> !isCode(lines[j])
    ensures r.None? <==> forall j :: 0 <= j < |lines| ==> !isCode(lines[j])
  {
    if lines == [] then None
    else if isCode(lines[0]) then Some(0)
    else match FirstCodeLine(isCode, lines[1..])
      case None => None
      case Some(k) => Some(k + 1)
  }

  /** The lines reported for `t`, examined after `previous`: at most one. */
  function TriviaIssues(isCode: string -> bool, contents: string -> string, previous: Option<Trivia>, t: Trivia): (r: seq<int>)
    ensures |r| <= 1
  {
    if IsInlineComment(t) then
      if isCode(contents(t.value)) && !PreviousLineIsCommentedCode(isCode, t, previous) then [t.line] else []
    else if IsPhpDoc(t) then []
    else BlockIssues(isCode, SplitLines(contents(t.originalValue)), t.line)
  }

  /** The line reported for a block comment whose lines are `lines` and which starts on `startLine`. */
  function BlockIssues(isCode: string -> bool, lines: seq<string>, startLine: int): (r: seq<int>)
    ensures |r| <= 1
  {
    match FirstCodeLine(isCode, lines)
    case None => []
    case Some(k) => [startLine + k]
  }

  /** The first line that looks like code is the one before which none does. */
  lemma FirstCodeLineAt(isCode: string -> bool, lines: seq<string>, k: nat)
    requires k < |lines| && isCode(lines[k]) && forall j :: 0 <= j < k ==> !isCode(lines[j])
    ensures FirstCodeLine(isCode, lines) == Some(k)
  {
  }

  /**
   * What is reported for `t`: a `//` comment on its own line when its
   * contents look like code and the suppression rule does not apply; a
   * documentation comment never; any other comment exactly when one of its
   * lines looks like code, at its start line plus the index of the first
   * such line.
   */
  lemma TriviaIssuesMeaning(isCode: string -> bool, contents: string -> string, previous: Option<Trivia>, t: Trivia)
    ensures IsInlineComment(t) ==>
      TriviaIssues(isCode, contents, previous, t)
        == (if isCode(contents(t.value)) && !PreviousLineIsCommentedCode(isCode, t, previous) then [t.line] else [])
    ensures IsPhpDoc(t) ==> TriviaIssues(isCode, contents, previous, t) == []
    ensures !IsInlineComment(t) && !IsPhpDoc(t) ==>
      var lines := SplitLines(contents(t.originalValue));
      && (TriviaIssues(isCode, contents, previous, t) == [] <==> forall j :: 0 <= j < |lines| ==> !isCode(lines[j]))
      && (forall k :: 0 <= k < |lines| && isCode(lines[k]) && (forall j :: 0 <= j < k ==> !isCode(lines[j]))
            ==> TriviaIssues(isCode, contents, previous, t) == [t.line + k])
  {
    PhpDocIsNotInline(t);
    if !IsInlineComment(t) && !IsPhpDoc(t) {
      var lines := SplitLines(contents(t.originalValue));
      forall k | 0 <= k < |lines| && isCode(lines[k]) && (forall j :: 0 <= j < k ==> !isCode(lines[j]))
        ensures TriviaIssues(isCode, contents, previous, t) == [t.line + k]
      {
        FirstCodeLineAt(isCode, lines, k);
      }
    }
  }

  /** The trivia examined just before the `i`-th one: none for the first. */
  function Previous(trivia: seq<Trivia>, i: nat): (r: Option<Trivia>)
    requires i < |trivia|
    ensures i == 0 <==> r.None?
    ensures i > 0 ==> r == Some(trivia[i - 1])
  {
    if i == 0 then None else Some(trivia[i - 1])
  }

  /** The lines reported for a token's trivia, examined in order, each after the one before it. */
  function TokenIssues(isCode: string -> bool, contents: string -> string, trivia: seq<Trivia>): (r: seq<int>)
    ensures |r| <= |trivia|
    decreases |trivia|
  {
    if trivia == [] then []
    else
      var n := |trivia| - 1;
      TokenIssues(isCode, contents, trivia[..n]) + TriviaIssues(isCode, contents, Previous(trivia, n), trivia[n])
  }

  /**
   * The issues of a token are those of its trivia, each examined after the
   * one just before it in the token: issues raised for the first `i` trivia
   * are not affected by the ones after.
   */
  lemma {:induction false} TokenIssuesSplit(isCode: string -> bool, contents: string -> string, trivia: seq<Trivia>, i: nat)
    requires i < |trivia|
    ensures TokenIssues(isCode, contents, trivia[..i + 1])
         == TokenIssues(isCode, contents, trivia[..i]) + TriviaIssues(isCode, contents, Previous(trivia, i), trivia[i])
  {
    assert trivia[..i + 1][..i] == trivia[..i];
    assert Previous(trivia[..i + 1], i) == Previous(trivia, i);
  }

  /**
   * A `//` comment on the line just below another trivia whose raw text looks
   * like code raises nothing, whatever its own contents.
   */
  lemma {:induction false} ConsecutiveInlineSuppressed(isCode: string -> bool, contents: string -> string, trivia: seq<Trivia>, i: nat)
    requires 0 < i < |trivia| && IsInlineComment(trivia[i])
    requires trivia[i].line == trivia[i - 1].line + 1 && isCode(trivia[i - 1].value)
    ensures TokenIssues(isCode, contents, trivia[..i + 1]) == TokenIssues(isCode, contents, trivia[..i])
  {
    TokenIssuesSplit(isCode, contents, trivia, i);
  }

  /** Every reported line is at or below the start line of one of the token's trivia. */
  lemma {:induction false} IssuesBelowTriviaStart(isCode: string -> bool, contents: string -> string, trivia: seq<Trivia>)
    ensures forall l :: l in TokenIssues(isCode, contents, trivia) ==> exists i :: 0 <= i < |trivia| && trivia[i].line <= l
    decreases |trivia|
  {
    if trivia != [] {
      var n := |trivia| - 1;
      IssuesBelowTriviaStart(isCode, contents, trivia[..n]);
      forall l | l in TokenIssues(isCode, contents, trivia)
        ensures exists i :: 0 <= i < |trivia| && trivia[i].line <= l
      {
        if l in TokenIssues(isCode, contents, trivia[..n]) {
          var i :| 0 <= i < n && trivia[..n][i].line <= l;
          assert trivia[i] == trivia[..n][i];
        } else {
          assert trivia[n].line <= l;
        }
      }
    }
  }

  /** The check, with the issues it has reported so far. */
  class CommentedOutCodeCheck {
    const isCode: string -> bool
    const contents: string -> string
    var issues: seq<int>

    constructor(isCode: string -> bool, contents: string -> string)
      ensures this.isCode == isCode && this.contents == contents && issues == []
    {
      this.isCode := isCode;
      this.contents := contents;
      issues := [];
    }

    /** Examines `trivia` after `previousTrivia`, reporting at most one line. */
    method CheckTrivia(previousTrivia: Option<Trivia>, trivia: Trivia)
      modifies this
      ensures issues == old(issues) + TriviaIssues(isCode, contents, previousTrivia, trivia)
    {
      if IsInlineComment(trivia) {
        if isCode(contents(trivia.value)) && !PreviousLineIsCommentedCode(isCode, trivia, previousTrivia) {
          issues := issues + [trivia.line];
        }
      } else if !IsPhpDoc(trivia) {
        ReportFirstCodeLine(trivia.line, SplitLines(contents(trivia.originalValue)));
      }
    }

    /**
     * The loop over the lines of a block comment: reports `startLine` plus
     * the index of the first line that looks like code, and stops there.
     */
    method ReportFirstCodeLine(startLine: int, lines: seq<string>)
      modifies this
      ensures issues == old(issues) + BlockIssues(isCode, lines, startLine)
    {
      var lineOffset := 0;
      while lineOffset < |lines|
        invariant 0 <= lineOffset <= |lines|
        invariant forall j :: 0 <= j < lineOffset ==> !isCode(lines[j])
        invariant issues == old(issues)
      {
        if isCode(lines[lineOffset]) {
          FirstCodeLineAt(isCode, lines, lineOffset);
          issues := issues + [startLine + lineOffset];
          break;
        }
        lineOffset := lineOffset + 1;
      }
    }

    /** Examines the trivia of `token` in order, each after the one before it. */
    method VisitToken(token: Token)
      modifies this
      ensures issues == old(issues) + TokenIssues(isCode, contents, token.trivia)
    {
      var previousTrivia: Option<Trivia> := None;
      var i := 0;
      while i < |token.trivia|
        invariant 0 <= i <= |token.trivia|
        invariant previousTrivia == if i == 0 then None else Some(token.trivia[i - 1])
        invariant issues == old(issues) + TokenIssues(isCode, contents, token.trivia[..i])
      {
        var trivia := token.trivia[i];
        TokenIssuesSplit(isCode, contents, token.trivia, i);
        ghost var before := issues;
        CheckTrivia(previousTrivia, trivia);
        AppendAssociates(old(issues), TokenIssues(isCode, contents, token.trivia[..i]), issues[|before|..]);
        previousTrivia := Some(trivia);
        i := i + 1;
      }
      assert token.trivia[..i] == token.trivia;
    }
  }
}
