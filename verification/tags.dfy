/**
 * The tag-mode channel of the PHP lexer. It cuts the free text of a file into
 * the runs that lie outside PHP code: at the very start of the file everything
 * up to and including the first opening tag (`<?php`, `<?=` or `<?`), and after
 * each closing tag `?>` everything up to and including the next opening tag.
 *
 * Both regular expressions of the channel use possessive quantifiers, so each
 * match is a deterministic function of the remaining text; they are written
 * here as functions from the remaining text to the length consumed.
 */
module PhpTags {
  import opened Wrappers
  import opened Tokens

  /** `<?` starts at index `i` of `s`. */
  predicate OpenAt(s: string, i: int) {
    0 <= i && i + 1 < |s| && s[i] == '<' && s[i + 1] == '?'
  }

  /** `?>` starts at index `i` of `s`. */
  predicate CloseAt(s: string, i: int) {
    0 <= i && i + 1 < |s| && s[i] == '?' && s[i + 1] == '>'
  }

  predicate IsPrefix(p: string, s: string) {
    |p| <= |s| && s[..|p|] == p
  }

  /** The spellings of the opening tag, in the order the alternation tries them. */
  const Spellings: seq<string> := ["<?php", "<?=", "<?"]

  /**
   * Length of the opening tag at the start of `s`: the first spelling of
   * `<\?(php|=|)` that is a prefix of `s`.
   */
  function OpeningTagLength(s: string): (n: nat)
    requires OpenAt(s, 0)
    ensures 2 <= n <= |s|
    ensures s[..n] in Spellings
  {
    if IsPrefix("<?php", s) then 5
    else if IsPrefix("<?=", s) then 3
    else assert s[..2] == "<?"; 2
  }

  /**
   * Trying the spellings in order picks the longest one that the text begins
   * with, so `<?php` is consumed whole and never as `<?` followed by `php`.
   */
  lemma OpeningTagIsLongestSpelling(s: string)
    requires OpenAt(s, 0)
    ensures forall sp :: sp in Spellings && IsPrefix(sp, s) ==> |sp| <= OpeningTagLength(s)
  {
    var n := OpeningTagLength(s);
    if n == 3 {
      assert !IsPrefix("<?php", s) by { assert s[2] == '='; }
    }
  }

  /**
   * The possessive run `(?:(?!<\?(php|=|))[\s\S])*+`: the length of the longest
   * prefix of `s` in which no `<?` starts. It stops at the first `<?`.
   */
  function LiteralLength(s: string): (n: nat)
    ensures n <= |s|
    ensures forall j :: 0 <= j < n ==> !OpenAt(s, j)
    ensures n == |s| || OpenAt(s, n)
  {
    if s == [] || OpenAt(s, 0) then 0
    else
      var k := LiteralLength(s[1..]);
      assert forall j :: 1 <= j <= k ==> (OpenAt(s, j) <==> OpenAt(s[1..], j - 1));
      1 + k
  }

  /**
   * The START pattern: the literal run, then the opening tag if one follows
   * (`(<\?(php|=|))?+`).
   */
  function StartLength(s: string): (n: nat)
    ensures LiteralLength(s) <= n <= |s|
  {
    var k := LiteralLength(s);
    if k < |s| then
      assert OpenAt(s[k..], 0);
      k + OpeningTagLength(s[k..])
    else k
  }

  /**
   * What START consumes: a literal part with no `<?` in it, followed by an
   * opening tag exactly when the text holds a `<?` at all; that tag is one of
   * the spellings and begins at the first `<?`.
   */
  lemma StartDecomposition(s: string)
    ensures var k, n := LiteralLength(s), StartLength(s);
      && (forall j :: !OpenAt(s[..k], j))
      && (n == k <==> forall j :: !OpenAt(s, j))
      && (n > k ==> OpenAt(s, k) && s[k..n] in Spellings)
  {
    var k, n := LiteralLength(s), StartLength(s);
    forall j | OpenAt(s[..k], j) ensures false {
      assert OpenAt(s, j);
    }
    if k < |s| {
      assert s[k..n] == s[k..][..OpeningTagLength(s[k..])];
    }
  }

  /**
   * The possessive quantifiers leave no choice: any split of a prefix of `s`
   * into a `<?`-free literal part and, unless the literal part is all of `s`,
   * the preferred opening tag at its end, has the length START consumes.
   */
  lemma StartLengthUnique(s: string, k: nat, n: nat)
    requires k <= |s|
    requires forall j :: 0 <= j < k ==> !OpenAt(s, j)
    requires (k == |s| && n == k) || (OpenAt(s, k) && n == k + OpeningTagLength(s[k..]))
    ensures n == StartLength(s)
  {
  }

  /**
   * The END pattern `\?>` followed by START: `None` when the text does not
   * begin with `?>`; otherwise `?>` plus exactly what START consumes on the
   * rest, so END is START shifted past the closing tag.
   */
  function EndLength(s: string): (r: Option<nat>)
    ensures r.Some? <==> IsPrefix("?>", s)
    ensures r.Some? ==> r.value == 2 + StartLength(s[2..]) <= |s|
  {
    if CloseAt(s, 0) then
      assert IsPrefix("?>", s) by { assert s[..2] == "?>"; }
      Some(2 + StartLength(s[2..]))
    else None
  }

  /**
   * The channel's verdict on the remaining text: START at the start of the
   * file, END elsewhere; a match of length zero produces no token. The text
   * START matches is typed `FileOpeningTag`, the text END matches `InlineHtml`.
   */
  function ChannelMatch(atFileStart: bool, rest: string): (r: Option<(nat, TokenKind)>)
    ensures r.Some? ==> 0 < r.value.0 <= |rest|
    ensures r.Some? ==> r.value.1 == if atFileStart then FileOpeningTag else InlineHtml
    ensures atFileStart ==> (r.Some? <==> rest != [])
    ensures !atFileStart ==> (r.Some? <==> CloseAt(rest, 0))
  {
    var n := if atFileStart then StartLength(rest)
      else match EndLength(rest) case Some(m) => m case None => 0;
    if n > 0 then Some((n, if atFileStart then FileOpeningTag else InlineHtml)) else None
  }

  /** A line ends at `text[j]`: a line feed, or a carriage return not followed by a line feed. */
  predicate LineBreakAt(text: string, j: nat)
    requires j < |text|
  {
    text[j] == '\n' || (text[j] == '\r' && !(j + 1 < |text| && text[j + 1] == '\n'))
  }

  /** The 1-based line and 0-based column of the cursor after the first `i` characters. */
  function PositionAt(text: string, i: nat): (int, int)
    requires i <= |text|
  {
    if i == 0 then (1, 0)
    else
      var (line, column) := PositionAt(text, i - 1);
      if LineBreakAt(text, i - 1) then (line + 1, 0) else (line, column + 1)
  }

  /** Line 1, column 0 is where the cursor stands before the first character and nowhere else. */
  lemma {:induction false} FileStartIsPositionZero(text: string, i: nat)
    requires i <= |text|
    ensures PositionAt(text, i).0 >= 1 && PositionAt(text, i).1 >= 0
    ensures PositionAt(text, i) == (1, 0) <==> i == 0
  {
    if i > 0 {
      FileStartIsPositionZero(text, i - 1);
    }
  }

  /** The reader's cursor over the text of one file. */
  class CodeReader {
    const text: string
    var cursor: nat
    var line: int
    var column: int

    ghost predicate Valid()
      reads this
    {
      cursor <= |text| && (line, column) == PositionAt(text, cursor)
    }

    constructor (text: string)
      ensures Valid() && this.text == text && cursor == 0
    {
      this.text := text;
      cursor, line, column := 0, 1, 0;
    }

    /** Moves the cursor over the next `n` characters, keeping line and column up to date. */
    method Pop(n: nat)
      requires Valid() && cursor + n <= |text|
      modifies this
      ensures Valid() && cursor == old(cursor) + n
    {
      var i := 0;
      while i < n
        invariant 0 <= i <= n
        invariant Valid() && cursor == old(cursor) + i
      {
        if LineBreakAt(text, cursor) {
          line, column := line + 1, 0;
        } else {
          column := column + 1;
        }
        cursor, i := cursor + 1, i + 1;
      }
    }
  }

  /** The token sink the channels append to. */
  class Lexer {
    var tokens: seq<Token>

    constructor ()
      ensures tokens == []
    {
      tokens := [];
    }

    method AddToken(t: Token)
      modifies this
      ensures tokens == old(tokens) + [t]
    {
      tokens := tokens + [t];
    }
  }

  /**
   * The channel's `consume`: START when the reader stands at line 1, column 0,
   * END otherwise. On a non-empty match the matched text becomes one token at
   * the reader's old position and the cursor moves past it; otherwise nothing
   * changes and the channel declines.
   */
  method Consume(code: CodeReader, lexer: Lexer) returns (consumed: bool)
    requires code.Valid()
    modifies code, lexer
    ensures code.Valid()
    ensures old(code.line == 1 && code.column == 0) <==> old(code.cursor) == 0
    ensures var rest := old(code.text[code.cursor..]);
      var m := ChannelMatch(old(code.line == 1 && code.column == 0), rest);
      && consumed == m.Some?
      && (m.Some? ==>
            && code.cursor == old(code.cursor) + m.value.0
            && lexer.tokens == old(lexer.tokens) + [Token(m.value.1, rest[..m.value.0], old(code.line), old(code.column), [])])
      && (m.None? ==> code.cursor == old(code.cursor) && lexer.tokens == old(lexer.tokens))
  {
    FileStartIsPositionZero(code.text, code.cursor);
    var rest := code.text[code.cursor..];
    var m := ChannelMatch(code.line == 1 && code.column == 0, rest);
    if m.Some? {
      var (n, kind) := m.value;
      lexer.AddToken(Token(kind, rest[..n], code.line, code.column, []));
      code.Pop(n);
      consumed := true;
    } else {
      consumed := false;
    }
  }
}
