/**
 * The per-line metrics visitor: while the tokens of a file are visited it
 * collects the lines that hold code and the lines on which comments start;
 * when the file is left it emits one code flag and one comment flag for every
 * line of the file and forgets both sets.
 */
module FileLines {
  import opened Tokens

  /** Whether a token counts towards the line metrics: the end-of-file token and the opening tag do not. */
  predicate Counted(t: Token) {
    t.kind != Eof && t.kind != FileOpeningTag
  }

  /** The lines on which the comments among `trivia` start; whitespace trivia contribute nothing. */
  function CommentLines(trivia: seq<Trivia>): (lines: set<int>)
    ensures forall l :: l in lines <==> exists i :: 0 <= i < |trivia| && trivia[i].kind == Comment && trivia[i].line == l
  {
    if trivia == [] then {}
    else
      var init := trivia[..|trivia| - 1];
      var last := trivia[|trivia| - 1];
      assert forall i :: 0 <= i < |init| ==> init[i] == trivia[i];
      CommentLines(init) + (if last.kind == Comment then {last.line} else {})
  }

  /** The two sets of lines the visitor accumulates. */
  datatype LineSets = LineSets(code: set<int>, comments: set<int>)

  /**
   * The sets after visiting `t`: a counted token adds its own line to the
   * code lines and the start line of each of its comment trivia to the
   * comment lines; any other token changes nothing.
   */
  function Visited(s: LineSets, t: Token): (r: LineSets)
    ensures forall l :: l in r.code <==> l in s.code || (Counted(t) && l == t.line)
    ensures forall l :: l in r.comments <==>
      l in s.comments || (Counted(t) && exists i :: 0 <= i < |t.trivia| && t.trivia[i].kind == Comment && t.trivia[i].line == l)
  {
    if Counted(t) then LineSets(s.code + {t.line}, s.comments + CommentLines(t.trivia)) else s
  }

  /** Visiting the same token again changes nothing: both accumulators are sets. */
  lemma VisitedTwice(s: LineSets, t: Token)
    ensures Visited(Visited(s, t), t) == Visited(s, t)
  {
    var once := Visited(s, t);
    var twice := Visited(once, t);
    assert twice.code == once.code;
    assert twice.comments == once.comments;
  }

  /** The order in which two tokens are visited does not matter. */
  lemma VisitedCommute(s: LineSets, t: Token, u: Token)
    ensures Visited(Visited(s, t), u) == Visited(Visited(s, u), t)
  {
    var tu := Visited(Visited(s, t), u);
    var ut := Visited(Visited(s, u), t);
    assert tu.code == ut.code;
    assert tu.comments == ut.comments;
  }

  /** The sets after visiting `toks` in order, starting from `s`. */
  function VisitedAll(s: LineSets, toks: seq<Token>): LineSets
    decreases |toks|
  {
    if toks == [] then s else VisitedAll(Visited(s, toks[0]), toks[1..])
  }

  /**
   * From empty sets, a line is a code line exactly when a counted token lies
   * on it, and a comment line exactly when a comment trivia of a counted
   * token starts on it.
   */
  lemma {:induction false} VisitedAllLines(s: LineSets, toks: seq<Token>)
    ensures forall l :: l in VisitedAll(s, toks).code <==>
      l in s.code || exists j :: 0 <= j < |toks| && Counted(toks[j]) && toks[j].line == l
    ensures forall l :: l in VisitedAll(s, toks).comments <==>
      l in s.comments || exists j :: 0 <= j < |toks| && Counted(toks[j]) && l in CommentLines(toks[j].trivia)
    decreases |toks|
  {
    if toks != [] {
      VisitedAllLines(Visited(s, toks[0]), toks[1..]);
      assert forall j :: 0 < j < |toks| ==> toks[j] == toks[1..][j - 1];
    }
  }

  /** The flag of one line in the host's line measures: 1 when the line holds code, resp. a comment, else 0. */
  datatype LineFlags = LineFlags(line: int, ncloc: int, commentLine: int)

  /** The flags of lines `1..n`, in order; nothing when `n` is not positive. */
  function FlagsUpTo(s: LineSets, n: int): (flags: seq<LineFlags>)
    ensures |flags| == if n > 0 then n else 0
    ensures forall i :: 0 <= i < |flags| ==> flags[i].line == i + 1
    ensures forall i :: 0 <= i < |flags| ==> (flags[i].ncloc == 1 <==> i + 1 in s.code)
    ensures forall i :: 0 <= i < |flags| ==> (flags[i].ncloc == 0 <==> i + 1 !in s.code)
    ensures forall i :: 0 <= i < |flags| ==> (flags[i].commentLine == 1 <==> i + 1 in s.comments)
    ensures forall i :: 0 <= i < |flags| ==> (flags[i].commentLine == 0 <==> i + 1 !in s.comments)
    decreases n
  {
    if n <= 0 then []
    else FlagsUpTo(s, n - 1) + [LineFlags(n, if n in s.code then 1 else 0, if n in s.comments then 1 else 0)]
  }

  /** The lines of the sets that lie outside `1..n` have no effect on the flags. */
  lemma {:induction false} FlagsIgnoreOutsideLines(s: LineSets, n: int)
    ensures FlagsUpTo(s, n) == FlagsUpTo(LineSets(s.code * Lines(n), s.comments * Lines(n)), n)
  {
    var t := LineSets(s.code * Lines(n), s.comments * Lines(n));
    var a := FlagsUpTo(s, n);
    var b := FlagsUpTo(t, n);
    assert |a| == |b|;
    forall i | 0 <= i < |a|
      ensures a[i] == b[i]
    {
      assert i + 1 in Lines(n);
    }
  }

  /** The lines `1..n` of a file of `n` lines. */
  function Lines(n: int): (r: set<int>)
    ensures forall l :: l in r <==> 1 <= l <= n
    decreases n
  {
    if n < 1 then {} else Lines(n - 1) + {n}
  }

  /** The visitor, with the two accumulators it updates in place. */
  class FileLinesVisitor {
    var linesOfCode: set<int>
    var linesOfComments: set<int>

    /** Both accumulators as one value. */
    function Sets(): LineSets
      reads this
    {
      LineSets(linesOfCode, linesOfComments)
    }

    constructor()
      ensures linesOfCode == {} && linesOfComments == {}
    {
      linesOfCode := {};
      linesOfComments := {};
    }

    /** Records the line of a counted token and the start lines of its comment trivia. */
    method VisitToken(token: Token)
      modifies this
      ensures Sets() == Visited(old(Sets()), token)
    {
      if token.kind == Eof || token.kind == FileOpeningTag {
        return;
      }
      linesOfCode := linesOfCode + {token.line};
      var trivias := token.trivia;
      var i := 0;
      while i < |trivias|
        invariant 0 <= i <= |trivias|
        invariant linesOfCode == old(linesOfCode) + {token.line}
        invariant linesOfComments == old(linesOfComments) + CommentLines(trivias[..i])
      {
        if trivias[i].kind == Comment {
          linesOfComments := linesOfComments + {trivias[i].line};
        }
        assert trivias[..i + 1][..i] == trivias[..i];
        i := i + 1;
      }
      assert trivias[..i] == trivias;
    }

    /**
     * Emits the code flag and the comment flag of every line `1..fileLength`,
     * in order, then empties both accumulators.
     */
    method LeaveFile(fileLength: int) returns (flags: seq<LineFlags>)
      modifies this
      ensures flags == FlagsUpTo(old(Sets()), fileLength)
      ensures linesOfCode == {} && linesOfComments == {}
    {
      flags := [];
      var line := 1;
      while line <= fileLength
        invariant 1 <= line <= (if fileLength > 0 then fileLength else 0) + 1
        invariant flags == FlagsUpTo(Sets(), line - 1)
        invariant Sets() == old(Sets())
      {
        var ncloc := if line in linesOfCode then 1 else 0;
        var commentLine := if line in linesOfComments then 1 else 0;
        flags := flags + [LineFlags(line, ncloc, commentLine)];
        line := line + 1;
      }
      assert line - 1 == if fileLength > 0 then fileLength else 0;
      linesOfCode := {};
      linesOfComments := {};
    }
  }
}
