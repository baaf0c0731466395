/**
 * The KEYWORDS rule: an ordered choice with one alternative per constant of
 * the keyword enumeration. The rule is registered by copying all keywords but
 * the first two into an array and passing the first two and the array to
 * `firstOf`; `BuildKeywords` is that copy loop.
 */
module PhpKeywords {
  import opened Tokens
  import opened Peg
  import opened PhpGrammar

  /**
   * Builds the body of KEYWORDS from the keyword enumeration `keywords`: the
   * array `rest` receives `keywords[i]` at `i - 2` for every `2 <= i < n`,
   * and the choice is the first two keywords followed by `rest`. An
   * enumeration of fewer than two constants has no first two.
   */
  method BuildKeywords(keywords: seq<Keyword>) returns (body: E)
    requires |keywords| >= 2
    ensures body.FirstOf? && |body.alternatives| == |keywords|
    ensures forall i :: 0 <= i < |keywords| ==> body.alternatives[i] == K(keywords[i])
    ensures keywords == AllKeywords ==> body == KeywordsDef().body
  {
    var n := |keywords|;
    var rest := new Keyword[n - 2];
    var i := 2;
    while i < n
      invariant 2 <= i <= n
      invariant forall j :: 2 <= j < i ==> rest[j - 2] == keywords[j]
    {
      rest[i - 2] := keywords[i];
      i := i + 1;
    }
    var alts := [K(keywords[0]), K(keywords[1])];
    i := 0;
    while i < rest.Length
      invariant 0 <= i <= rest.Length
      invariant |alts| == i + 2
      invariant alts[0] == K(keywords[0]) && alts[1] == K(keywords[1])
      invariant forall j :: 0 <= j < i ==> alts[j + 2] == K(rest[j])
    {
      alts := alts + [K(rest[i])];
      i := i + 1;
    }
    body := FirstOf(alts);
    if keywords == AllKeywords {
      assert alts == KeywordAlternatives();
    }
  }

  /** The token types a choice of one keyword terminal per element of `ks` accepts. */
  lemma {:induction false} KindsOfKeywords(alts: seq<E>, ks: seq<Keyword>)
    requires |alts| == |ks| && forall i :: 0 <= i < |ks| ==> alts[i] == K(ks[i])
    ensures KindTerminals(alts)
    ensures forall t :: t in Kinds(alts) <==> t.Kw? && t.keyword in ks
  {
    if ks != [] {
      KindsOfKeywords(alts[1..], ks[1..]);
      assert ks == [ks[0]] + ks[1..];
    }
  }

  /** Every keyword is a constant of the enumeration. */
  lemma EveryKeywordListed(k: Keyword)
    ensures k in AllKeywords
  {
    match k
    case Abstract => assert AllKeywords[0] == k;
    case And => assert AllKeywords[1] == k;
    case Array => assert AllKeywords[2] == k;
    case As => assert AllKeywords[3] == k;
    case Break => assert AllKeywords[4] == k;
    case Callable => assert AllKeywords[5] == k;
    case Case => assert AllKeywords[6] == k;
    case Catch => assert AllKeywords[7] == k;
    case Class => assert AllKeywords[8] == k;
    case Clone => assert AllKeywords[9] == k;
    case Const => assert AllKeywords[10] == k;
    case Continue => assert AllKeywords[11] == k;
    case Declare => assert AllKeywords[12] == k;
    case Default => assert AllKeywords[13] == k;
    case Die => assert AllKeywords[14] == k;
    case Do => assert AllKeywords[15] == k;
    case Echo => assert AllKeywords[16] == k;
    case Else => assert AllKeywords[17] == k;
    case Elseif => assert AllKeywords[18] == k;
    case Empty => assert AllKeywords[19] == k;
    case Enddeclare => assert AllKeywords[20] == k;
    case Endfor => assert AllKeywords[21] == k;
    case Endforeach => assert AllKeywords[22] == k;
    case Endif => assert AllKeywords[23] == k;
    case Endswitch => assert AllKeywords[24] == k;
    case Endwhile => assert AllKeywords[25] == k;
    case Eval => assert AllKeywords[26] == k;
    case Exit => assert AllKeywords[27] == k;
    case Extends => assert AllKeywords[28] == k;
    case Final => assert AllKeywords[29] == k;
    case Finally => assert AllKeywords[30] == k;
    case For => assert AllKeywords[31] == k;
    case Foreach => assert AllKeywords[32] == k;
    case Function => assert AllKeywords[33] == k;
    case Global => assert AllKeywords[34] == k;
    case Goto => assert AllKeywords[35] == k;
    case HaltCompiler => assert AllKeywords[36] == k;
    case If => assert AllKeywords[37] == k;
    case Implements => assert AllKeywords[38] == k;
    case Include => assert AllKeywords[39] == k;
    case IncludeOnce => assert AllKeywords[40] == k;
    case Instanceof => assert AllKeywords[41] == k;
    case Insteadof => assert AllKeywords[42] == k;
    case Interface => assert AllKeywords[43] == k;
    case Isset => assert AllKeywords[44] == k;
    case List => assert AllKeywords[45] == k;
    case Namespace => assert AllKeywords[46] == k;
    case New => assert AllKeywords[47] == k;
    case Or => assert AllKeywords[48] == k;
    case Print => assert AllKeywords[49] == k;
    case Private => assert AllKeywords[50] == k;
    case Protected => assert AllKeywords[51] == k;
    case Public => assert AllKeywords[52] == k;
    case Require => assert AllKeywords[53] == k;
    case RequireOnce => assert AllKeywords[54] == k;
    case Return => assert AllKeywords[55] == k;
    case Static => assert AllKeywords[56] == k;
    case Switch => assert AllKeywords[57] == k;
    case Throw => assert AllKeywords[58] == k;
    case Trait => assert AllKeywords[59] == k;
    case Try => assert AllKeywords[60] == k;
    case Unset => assert AllKeywords[61] == k;
    case Use => assert AllKeywords[62] == k;
    case Var => assert AllKeywords[63] == k;
    case While => assert AllKeywords[64] == k;
    case Xor => assert AllKeywords[65] == k;
    case Yield => assert AllKeywords[66] == k;
  }

  /** The keyword terminals of KEYWORDS accept every keyword and nothing else. */
  lemma KeywordKinds()
    ensures KindTerminals(KeywordAlternatives())
    ensures forall t :: t in Kinds(KeywordAlternatives()) <==> t.Kw?
  {
    KindsOfKeywords(KeywordAlternatives(), AllKeywords);
    forall t: TokenKind | t.Kw?
      ensures t.keyword in AllKeywords
    {
      EveryKeywordListed(t.keyword);
    }
  }

  /**
   * KEYWORDS consumes exactly one token, kept as a leaf under a KEYWORDS node,
   * when that token is a keyword of any kind, and fails on every other token
   * and at the end of the input.
   */
  lemma KeywordsMatch(g: RuleName -> RuleDef<RuleName>, toks: seq<Token>, pos: nat, fuel: nat)
    requires g(Keywords) == KeywordsDef() && pos <= |toks| && fuel >= 1
    ensures Match(g, Ref(Keywords), toks, pos, fuel)
         == if pos < |toks| && toks[pos].kind.Kw? then Matched(pos + 1, [Inner(Keywords, [Leaf(toks[pos])])])
            else NoMatch
  {
    KeywordKinds();
    KeptChoiceOfKinds(g, Keywords, KeywordAlternatives(), toks, pos, fuel);
  }
}
