/**
 * The parsing-expression engine the PHP grammar is written for: rules made of
 * terminals, sequences, ordered choices, optional parts and repetitions,
 * matched top-down over an already-lexed token list, building a concrete
 * syntax tree in which a rule may be dropped (`skip`) or collapsed into its
 * only child (`skipIfOneChild`).
 *
 * The matcher is generic in the type `R` of rule names and takes the rule
 * table as a total function, so a reference to an undefined rule cannot be
 * written. Each rule reference spends one unit of fuel; running out of fuel is
 * an outcome of its own that is never confused with a failed match.
 */
module Peg {
  import opened Tokens

  /** A terminal: a token type, or an exact token text. */
  datatype Terminal = OfKind(kind: TokenKind) | OfValue(value: string)

  predicate Accepts(t: Terminal, tok: Token) {
    match t
    case OfKind(k) => tok.kind == k
    case OfValue(v) => tok.value == v
  }

  datatype Expr<R> =
    | Term(terminal: Terminal)
    | Ref(rule: R)
    | Seq(items: seq<Expr<R>>)
    | FirstOf(alternatives: seq<Expr<R>>)
    | Optional(body: Expr<R>)
    | ZeroOrMore(body: Expr<R>)
    | OneOrMore(body: Expr<R>)

  /** How a rule's node enters the tree: kept, dropped in favour of its children, or dropped when it has one child. */
  datatype Policy = Keep | Skip | SkipIfOneChild

  datatype RuleDef<R> = RuleDef(body: Expr<R>, policy: Policy)

  /** A node of the concrete syntax tree: a token, or a rule with its children. */
  datatype Node<R> = Leaf(token: Token) | Inner(rule: R, children: seq<Node<R>>)

  /**
   * The outcome of matching: the position after the match and the nodes it
   * contributes to the parent; no match; the engine's refusal of a repetition
   * whose body matched without consuming a token; or exhausted fuel.
   */
  datatype Outcome<R> = Matched(end: nat, nodes: seq<Node<R>>) | NoMatch | EmptyLoop | OutOfFuel

  function Size<R>(e: Expr<R>): (n: nat)
    ensures n >= 1
  {
    match e
    case Term(_) => 1
    case Ref(_) => 1
    case Seq(items) => 1 + SizeAll(items)
    case FirstOf(alts) => 1 + SizeAll(alts)
    case Optional(b) => 1 + Size(b)
    case ZeroOrMore(b) => 1 + Size(b)
    case OneOrMore(b) => 2 + Size(b)
  }

  function SizeAll<R>(es: seq<Expr<R>>): nat {
    if es == [] then 0 else Size(es[0]) + SizeAll(es[1..])
  }

  /** The tokens at the leaves of `ns`, left to right. */
  function Frontier<R>(ns: seq<Node<R>>): seq<Token> {
    if ns == [] then [] else NodeFrontier(ns[0]) + Frontier(ns[1..])
  }

  function NodeFrontier<R>(n: Node<R>): seq<Token> {
    match n
    case Leaf(t) => [t]
    case Inner(_, children) => Frontier(children)
  }

  lemma {:induction false} FrontierAppend<R>(a: seq<Node<R>>, b: seq<Node<R>>)
    ensures Frontier(a + b) == Frontier(a) + Frontier(b)
  {
    if a == [] {
      assert a + b == b;
    } else {
      assert (a + b)[0] == a[0] && (a + b)[1..] == a[1..] + b;
      FrontierAppend(a[1..], b);
    }
  }

  /** What a matched rule contributes to its parent, given the children its body produced. */
  function Splice<R>(rule: R, policy: Policy, children: seq<Node<R>>): (ns: seq<Node<R>>)
    ensures Frontier(ns) == Frontier(children)
    ensures policy == Keep ==> ns == [Inner(rule, children)]
    ensures policy == Skip ==> ns == children
    ensures policy == SkipIfOneChild ==> ns == if |children| == 1 then children else [Inner(rule, children)]
  {
    match policy
    case Keep => [Inner(rule, children)]
    case Skip => children
    case SkipIfOneChild => if |children| == 1 then children else [Inner(rule, children)]
  }

  /**
   * Matches `e` at token position `pos`. Whatever matches, the leaves of the
   * nodes it contributes are exactly the tokens it consumed, in order: no
   * token is dropped or duplicated by building the tree, with or without
   * skipped and collapsed rules.
   */
  function Match<R>(table: R -> RuleDef<R>, e: Expr<R>, toks: seq<Token>, pos: nat, fuel: nat): (r: Outcome<R>)
    requires pos <= |toks|
    ensures r.Matched? ==> pos <= r.end <= |toks| && Frontier(r.nodes) == toks[pos..r.end]
    decreases fuel, Size(e), |toks| - pos, 1
  {
    match e
    case Term(t) =>
      if pos < |toks| && Accepts(t, toks[pos]) then Matched(pos + 1, [Leaf(toks[pos])]) else NoMatch
    case Ref(rule) =>
      if fuel == 0 then OutOfFuel
      else
        var d := table(rule);
        (match Match(table, d.body, toks, pos, fuel - 1)
         case Matched(end, children) => Matched(end, Splice(rule, d.policy, children))
         case other => other)
    case Seq(items) => MatchSeq(table, items, toks, pos, fuel)
    case FirstOf(alts) => MatchFirst(table, alts, toks, pos, fuel)
    case Optional(b) =>
      (match Match(table, b, toks, pos, fuel)
       case NoMatch => Matched(pos, [])
       case other => other)
    case ZeroOrMore(b) => MatchLoop(table, b, toks, pos, fuel)
    case OneOrMore(b) =>
      match Match(table, b, toks, pos, fuel)
      case Matched(p, ns) => Then(ns, MatchLoop(table, b, toks, p, fuel), toks, pos, p)
      case other => other
  }

  /** Prefixes the nodes `ns`, matched over `toks[pos..p]`, to an outcome that starts at `p`. */
  function Then<R>(ns: seq<Node<R>>, rest: Outcome<R>, toks: seq<Token>, pos: nat, p: nat): (r: Outcome<R>)
    requires pos <= p <= |toks| && Frontier(ns) == toks[pos..p]
    requires rest.Matched? ==> p <= rest.end <= |toks| && Frontier(rest.nodes) == toks[p..rest.end]
    ensures r.Matched? ==> pos <= r.end <= |toks| && Frontier(r.nodes) == toks[pos..r.end]
    ensures r.Matched? <==> rest.Matched?
    ensures r.Matched? ==> r == Matched(rest.end, ns + rest.nodes)
    ensures !r.Matched? ==> r == rest
  {
    match rest
    case Matched(q, ms) =>
      FrontierAppend(ns, ms);
      assert toks[pos..q] == toks[pos..p] + toks[p..q];
      Matched(q, ns + ms)
    case other => other
  }

  /** A sequence: every item in turn, each from where the previous one stopped. */
  function MatchSeq<R>(table: R -> RuleDef<R>, items: seq<Expr<R>>, toks: seq<Token>, pos: nat, fuel: nat): (r: Outcome<R>)
    requires pos <= |toks|
    ensures r.Matched? ==> pos <= r.end <= |toks| && Frontier(r.nodes) == toks[pos..r.end]
    decreases fuel, SizeAll(items), |toks| - pos, 2
  {
    if items == [] then Matched(pos, [])
    else
      match Match(table, items[0], toks, pos, fuel)
      case Matched(p, ns) => Then(ns, MatchSeq(table, items[1..], toks, p, fuel), toks, pos, p)
      case other => other
  }

  /** An ordered choice: the first alternative that does not fail decides. */
  function MatchFirst<R>(table: R -> RuleDef<R>, alts: seq<Expr<R>>, toks: seq<Token>, pos: nat, fuel: nat): (r: Outcome<R>)
    requires pos <= |toks|
    ensures r.Matched? ==> pos <= r.end <= |toks| && Frontier(r.nodes) == toks[pos..r.end]
    decreases fuel, SizeAll(alts), |toks| - pos, 2
  {
    if alts == [] then NoMatch
    else
      match Match(table, alts[0], toks, pos, fuel)
      case NoMatch => MatchFirst(table, alts[1..], toks, pos, fuel)
      case other => other
  }

  /** A repetition: the body as often as it matches; an iteration that consumes nothing is refused. */
  function MatchLoop<R>(table: R -> RuleDef<R>, b: Expr<R>, toks: seq<Token>, pos: nat, fuel: nat): (r: Outcome<R>)
    requires pos <= |toks|
    ensures r.Matched? ==> pos <= r.end <= |toks| && Frontier(r.nodes) == toks[pos..r.end]
    decreases fuel, Size(b) + 1, |toks| - pos, 0
  {
    match Match(table, b, toks, pos, fuel)
    case Matched(p, ns) =>
      if p == pos then EmptyLoop
      else Then(ns, MatchLoop(table, b, toks, p, fuel), toks, pos, p)
    case NoMatch => Matched(pos, [])
    case other => other
  }

  /**
   * More fuel never changes an outcome that did not run out of fuel: the bound
   * only cuts derivations short, it never alters one that completes.
   */
  lemma {:induction false} MatchFuelMonotone<R>(table: R -> RuleDef<R>, e: Expr<R>, toks: seq<Token>, pos: nat, f: nat, g: nat)
    requires pos <= |toks| && f <= g
    requires Match(table, e, toks, pos, f) != OutOfFuel
    ensures Match(table, e, toks, pos, g) == Match(table, e, toks, pos, f)
    decreases f, Size(e), |toks| - pos, 1
  {
    match e
    case Term(_) =>
    case Ref(rule) =>
      MatchFuelMonotone(table, table(rule).body, toks, pos, f - 1, g - 1);
    case Seq(items) => SeqFuelMonotone(table, items, toks, pos, f, g);
    case FirstOf(alts) => FirstFuelMonotone(table, alts, toks, pos, f, g);
    case Optional(b) => MatchFuelMonotone(table, b, toks, pos, f, g);
    case ZeroOrMore(b) => LoopFuelMonotone(table, b, toks, pos, f, g);
    case OneOrMore(b) =>
      MatchFuelMonotone(table, b, toks, pos, f, g);
      if Match(table, b, toks, pos, f).Matched? {
        LoopFuelMonotone(table, b, toks, Match(table, b, toks, pos, f).end, f, g);
      }
  }

  lemma {:induction false} SeqFuelMonotone<R>(table: R -> RuleDef<R>, items: seq<Expr<R>>, toks: seq<Token>, pos: nat, f: nat, g: nat)
    requires pos <= |toks| && f <= g
    requires MatchSeq(table, items, toks, pos, f) != OutOfFuel
    ensures MatchSeq(table, items, toks, pos, g) == MatchSeq(table, items, toks, pos, f)
    decreases f, SizeAll(items), |toks| - pos, 2
  {
    if items != [] {
      MatchFuelMonotone(table, items[0], toks, pos, f, g);
      if Match(table, items[0], toks, pos, f).Matched? {
        SeqFuelMonotone(table, items[1..], toks, Match(table, items[0], toks, pos, f).end, f, g);
      }
    }
  }

  lemma {:induction false} FirstFuelMonotone<R>(table: R -> RuleDef<R>, alts: seq<Expr<R>>, toks: seq<Token>, pos: nat, f: nat, g: nat)
    requires pos <= |toks| && f <= g
    requires MatchFirst(table, alts, toks, pos, f) != OutOfFuel
    ensures MatchFirst(table, alts, toks, pos, g) == MatchFirst(table, alts, toks, pos, f)
    decreases f, SizeAll(alts), |toks| - pos, 2
  {
    if alts != [] {
      MatchFuelMonotone(table, alts[0], toks, pos, f, g);
      if Match(table, alts[0], toks, pos, f) == NoMatch {
        FirstFuelMonotone(table, alts[1..], toks, pos, f, g);
      }
    }
  }

  lemma {:induction false} LoopFuelMonotone<R>(table: R -> RuleDef<R>, b: Expr<R>, toks: seq<Token>, pos: nat, f: nat, g: nat)
    requires pos <= |toks| && f <= g
    requires MatchLoop(table, b, toks, pos, f) != OutOfFuel
    ensures MatchLoop(table, b, toks, pos, g) == MatchLoop(table, b, toks, pos, f)
    decreases f, Size(b) + 1, |toks| - pos, 0
  {
    MatchFuelMonotone(table, b, toks, pos, f, g);
    var r := Match(table, b, toks, pos, f);
    if r.Matched? && r.end != pos {
      LoopFuelMonotone(table, b, toks, r.end, f, g);
    }
  }

  /**
   * Ordered choice skips the alternatives that fail: when the first `i` do
   * not match, the choice behaves as the remaining ones do.
   */
  lemma {:induction false} FirstSkipsFailures<R>(table: R -> RuleDef<R>, alts: seq<Expr<R>>, toks: seq<Token>, pos: nat, fuel: nat, i: nat)
    requires pos <= |toks| && i <= |alts|
    requires forall j :: 0 <= j < i ==> Match(table, alts[j], toks, pos, fuel) == NoMatch
    ensures MatchFirst(table, alts, toks, pos, fuel) == MatchFirst(table, alts[i..], toks, pos, fuel)
  {
    if i > 0 {
      assert Match(table, alts[0], toks, pos, fuel) == NoMatch;
      FirstSkipsFailures(table, alts[1..], toks, pos, fuel, i - 1);
      assert alts[1..][i - 1..] == alts[i..];
    }
  }

  /**
   * The ordered-choice law: the outcome of a choice is that of its first
   * alternative that does not fail (a match, or an engine error, which is not
   * masked by a later alternative); when every alternative fails, so does the choice.
   */
  lemma {:induction false} FirstOfOutcome<R>(table: R -> RuleDef<R>, alts: seq<Expr<R>>, toks: seq<Token>, pos: nat, fuel: nat)
    requires pos <= |toks|
    ensures var r := MatchFirst(table, alts, toks, pos, fuel);
      && (r == NoMatch <==> forall j :: 0 <= j < |alts| ==> Match(table, alts[j], toks, pos, fuel) == NoMatch)
      && (forall i :: 0 <= i < |alts| && Match(table, alts[i], toks, pos, fuel) != NoMatch
            && (forall j :: 0 <= j < i ==> Match(table, alts[j], toks, pos, fuel) == NoMatch)
            ==> r == Match(table, alts[i], toks, pos, fuel))
  {
    if alts != [] && Match(table, alts[0], toks, pos, fuel) == NoMatch {
      var tail := alts[1..];
      FirstOfOutcome(table, tail, toks, pos, fuel);
      assert forall j :: 1 <= j < |alts| ==> alts[j] == tail[j - 1];
    }
  }

  /** The token types that the token-type terminals among `alts` accept. */
  function Kinds<R>(alts: seq<Expr<R>>): set<TokenKind> {
    if alts == [] then {}
    else (if alts[0].Term? && alts[0].terminal.OfKind? then {alts[0].terminal.kind} else {}) + Kinds(alts[1..])
  }

  /** Every alternative is a token-type terminal. */
  predicate KindTerminals<R>(alts: seq<Expr<R>>) {
    forall j :: 0 <= j < |alts| ==> alts[j].Term? && alts[j].terminal.OfKind?
  }

  /**
   * An ordered choice among token-type terminals consumes one token, left as
   * a leaf, exactly when the token's type is one of theirs.
   */
  lemma {:induction false} FirstOfKinds<R>(table: R -> RuleDef<R>, alts: seq<Expr<R>>, toks: seq<Token>, pos: nat, fuel: nat)
    requires pos <= |toks| && KindTerminals(alts)
    ensures MatchFirst(table, alts, toks, pos, fuel) ==
      if pos < |toks| && toks[pos].kind in Kinds(alts) then Matched(pos + 1, [Leaf(toks[pos])]) else NoMatch
  {
    if alts != [] {
      FirstOfKinds(table, alts[1..], toks, pos, fuel);
    }
  }

  /** A kept rule whose body is a choice among token-type terminals: one token, under the rule's node. */
  lemma KeptChoiceOfKinds<R>(table: R -> RuleDef<R>, x: R, alts: seq<Expr<R>>, toks: seq<Token>, pos: nat, fuel: nat)
    requires pos <= |toks| && fuel >= 1 && table(x) == RuleDef(FirstOf(alts), Keep) && KindTerminals(alts)
    ensures Match(table, Ref(x), toks, pos, fuel) ==
      if pos < |toks| && toks[pos].kind in Kinds(alts) then Matched(pos + 1, [Inner(x, [Leaf(toks[pos])])]) else NoMatch
  {
    FirstOfKinds(table, alts, toks, pos, fuel - 1);
  }

  /**
   * `e` fails at `pos` for a reason visible from its first token: every
   * terminal a match would have to begin with refuses the token there,
   * looking through rule references while fuel lasts.
   */
  predicate Refuses<R>(table: R -> RuleDef<R>, e: Expr<R>, toks: seq<Token>, pos: nat, fuel: nat)
    decreases fuel, Size(e), 1
  {
    match e
    case Term(t) => !(pos < |toks| && Accepts(t, toks[pos]))
    case Ref(x) => fuel > 0 && Refuses(table, table(x).body, toks, pos, fuel - 1)
    case Seq(items) => RefusesSeq(table, items, toks, pos, fuel)
    case FirstOf(alts) => RefusesAll(table, alts, toks, pos, fuel)
    case OneOrMore(b) => Refuses(table, b, toks, pos, fuel)
    case _ => false
  }

  /** A sequence refuses: its first item does, possibly after optional items that refuse too. */
  predicate RefusesSeq<R>(table: R -> RuleDef<R>, items: seq<Expr<R>>, toks: seq<Token>, pos: nat, fuel: nat)
    decreases fuel, SizeAll(items), 2
  {
    items != [] &&
    (Refuses(table, items[0], toks, pos, fuel) ||
     (items[0].Optional? && Refuses(table, items[0].body, toks, pos, fuel) &&
      RefusesSeq(table, items[1..], toks, pos, fuel)))
  }

  /** Every alternative refuses. */
  predicate RefusesAll<R>(table: R -> RuleDef<R>, alts: seq<Expr<R>>, toks: seq<Token>, pos: nat, fuel: nat)
    decreases fuel, SizeAll(alts), 2
  {
    alts == [] || (Refuses(table, alts[0], toks, pos, fuel) && RefusesAll(table, alts[1..], toks, pos, fuel))
  }

  /** What `Refuses` promises: the expression does not match. */
  lemma {:induction false} RefusedFails<R>(table: R -> RuleDef<R>, e: Expr<R>, toks: seq<Token>, pos: nat, fuel: nat)
    requires pos <= |toks| && Refuses(table, e, toks, pos, fuel)
    ensures Match(table, e, toks, pos, fuel) == NoMatch
    decreases fuel, Size(e), 1
  {
    match e
    case Term(_) =>
    case Ref(x) => RefusedFails(table, table(x).body, toks, pos, fuel - 1);
    case Seq(items) => RefusedSeqFails(table, items, toks, pos, fuel);
    case FirstOf(alts) => RefusedAllFail(table, alts, toks, pos, fuel);
    case OneOrMore(b) => RefusedFails(table, b, toks, pos, fuel);
  }

  lemma {:induction false} RefusedSeqFails<R>(table: R -> RuleDef<R>, items: seq<Expr<R>>, toks: seq<Token>, pos: nat, fuel: nat)
    requires pos <= |toks| && RefusesSeq(table, items, toks, pos, fuel)
    ensures MatchSeq(table, items, toks, pos, fuel) == NoMatch
    decreases fuel, SizeAll(items), 2
  {
    if Refuses(table, items[0], toks, pos, fuel) {
      RefusedFails(table, items[0], toks, pos, fuel);
    } else {
      assert Size(items[0].body) < Size(items[0]) <= SizeAll(items);
      RefusedFails(table, items[0].body, toks, pos, fuel);
      RefusedSeqFails(table, items[1..], toks, pos, fuel);
    }
  }

  lemma {:induction false} RefusedAllFail<R>(table: R -> RuleDef<R>, alts: seq<Expr<R>>, toks: seq<Token>, pos: nat, fuel: nat)
    requires pos <= |toks| && RefusesAll(table, alts, toks, pos, fuel)
    ensures MatchFirst(table, alts, toks, pos, fuel) == NoMatch
    decreases fuel, SizeAll(alts), 2
  {
    if alts != [] {
      RefusedFails(table, alts[0], toks, pos, fuel);
      RefusedAllFail(table, alts[1..], toks, pos, fuel);
    }
  }

  /** A choice refuses when each of its alternatives does. */
  lemma {:induction false} ChoiceRefuses<R>(table: R -> RuleDef<R>, alts: seq<Expr<R>>, toks: seq<Token>, pos: nat, fuel: nat)
    requires forall j :: 0 <= j < |alts| ==> Refuses(table, alts[j], toks, pos, fuel)
    ensures Refuses(table, FirstOf(alts), toks, pos, fuel)
    ensures RefusesAll(table, alts, toks, pos, fuel)
  {
    if alts != [] {
      ChoiceRefuses(table, alts[1..], toks, pos, fuel);
    }
  }

  /** Ordered choice skips a prefix of alternatives that refuse the token. */
  lemma FirstSkipsRefused<R>(table: R -> RuleDef<R>, alts: seq<Expr<R>>, toks: seq<Token>, pos: nat, fuel: nat, i: nat)
    requires pos <= |toks| && i <= |alts|
    requires forall j :: 0 <= j < i ==> Refuses(table, alts[j], toks, pos, fuel)
    ensures MatchFirst(table, alts, toks, pos, fuel) == MatchFirst(table, alts[i..], toks, pos, fuel)
  {
    forall j | 0 <= j < i ensures Match(table, alts[j], toks, pos, fuel) == NoMatch {
      RefusedFails(table, alts[j], toks, pos, fuel);
    }
    FirstSkipsFailures(table, alts, toks, pos, fuel, i);
  }

  /** An optional part whose body refuses takes nothing. */
  lemma RefusedOptional<R>(table: R -> RuleDef<R>, b: Expr<R>, toks: seq<Token>, pos: nat, fuel: nat)
    requires pos <= |toks| && Refuses(table, b, toks, pos, fuel)
    ensures Match(table, Optional(b), toks, pos, fuel) == Matched(pos, [])
  {
    RefusedFails(table, b, toks, pos, fuel);
  }

  /** A repetition whose body refuses stops at once, taking nothing. */
  lemma RefusedLoop<R>(table: R -> RuleDef<R>, b: Expr<R>, toks: seq<Token>, pos: nat, fuel: nat)
    requires pos <= |toks| && Refuses(table, b, toks, pos, fuel)
    ensures Match(table, ZeroOrMore(b), toks, pos, fuel) == Matched(pos, [])
  {
    RefusedFails(table, b, toks, pos, fuel);
  }

  /** A sequence matches when its first item does and the rest follows on from there. */
  lemma SeqStep<R>(table: R -> RuleDef<R>, items: seq<Expr<R>>, toks: seq<Token>, pos: nat, p: nat, ns: seq<Node<R>>,
                   e: nat, ms: seq<Node<R>>, fuel: nat)
    requires pos <= |toks| && items != []
    requires Match(table, items[0], toks, pos, fuel) == Matched(p, ns)
    requires MatchSeq(table, items[1..], toks, p, fuel) == Matched(e, ms)
    ensures MatchSeq(table, items, toks, pos, fuel) == Matched(e, ns + ms)
  {
  }

  /** A sequence fails when its second item fails where the first one ends. */
  lemma SeqFailsAtSecond<R>(table: R -> RuleDef<R>, items: seq<Expr<R>>, toks: seq<Token>, pos: nat, p: nat,
                            ns: seq<Node<R>>, fuel: nat)
    requires pos <= |toks| && |items| >= 2
    requires Match(table, items[0], toks, pos, fuel) == Matched(p, ns)
    requires Match(table, items[1], toks, p, fuel) == NoMatch
    ensures MatchSeq(table, items, toks, pos, fuel) == NoMatch
  {
    assert items[1..][0] == items[1];
  }

  /** A sequence fails when what follows its first item fails. */
  lemma SeqFailsAfterFirst<R>(table: R -> RuleDef<R>, items: seq<Expr<R>>, toks: seq<Token>, pos: nat, p: nat,
                              ns: seq<Node<R>>, fuel: nat)
    requires pos <= |toks| && items != []
    requires Match(table, items[0], toks, pos, fuel) == Matched(p, ns)
    requires MatchSeq(table, items[1..], toks, p, fuel) == NoMatch
    ensures MatchSeq(table, items, toks, pos, fuel) == NoMatch
  {
  }

  /** A rule fails when its body fails. */
  lemma RuleFails<R>(table: R -> RuleDef<R>, x: R, toks: seq<Token>, pos: nat, fuel: nat)
    requires pos <= |toks| && fuel >= 1 && Match(table, table(x).body, toks, pos, fuel - 1) == NoMatch
    ensures Match(table, Ref(x), toks, pos, fuel) == NoMatch
  {
  }

  /** An optional part that matches is taken. */
  lemma OptionalTaken<R>(table: R -> RuleDef<R>, b: Expr<R>, toks: seq<Token>, pos: nat, fuel: nat, e: nat, ns: seq<Node<R>>)
    requires pos <= |toks| && Match(table, b, toks, pos, fuel) == Matched(e, ns)
    ensures Match(table, Optional(b), toks, pos, fuel) == Matched(e, ns)
  {
  }

  /** A sequence of three items and a remainder matches when each part does where the previous one ends. */
  lemma SeqOfThree<R>(table: R -> RuleDef<R>, items: seq<Expr<R>>, toks: seq<Token>, pos: nat, p1: nat, p2: nat,
                      p3: nat, e: nat, n0: seq<Node<R>>, n1: seq<Node<R>>, n2: seq<Node<R>>, rest: seq<Node<R>>,
                      fuel: nat)
    requires pos <= |toks| && |items| >= 3
    requires Match(table, items[0], toks, pos, fuel) == Matched(p1, n0)
    requires Match(table, items[1], toks, p1, fuel) == Matched(p2, n1)
    requires Match(table, items[2], toks, p2, fuel) == Matched(p3, n2)
    requires MatchSeq(table, items[3..], toks, p3, fuel) == Matched(e, rest)
    ensures MatchSeq(table, items, toks, pos, fuel) == Matched(e, n0 + (n1 + (n2 + rest)))
  {
    assert items[2..][1..] == items[3..];
    SeqStep(table, items[2..], toks, p2, p3, n2, e, rest, fuel);
    assert items[1..][1..] == items[2..];
    SeqStep(table, items[1..], toks, p1, p2, n1, e, n2 + rest, fuel);
    SeqStep(table, items, toks, pos, p1, n0, e, n1 + (n2 + rest), fuel);
  }

  /** A kept rule matches as one node over what its body matches. */
  lemma KeptRuleMatch<R>(table: R -> RuleDef<R>, x: R, b: Expr<R>, toks: seq<Token>, pos: nat, fuel: nat,
                         e: nat, ns: seq<Node<R>>)
    requires pos <= |toks| && fuel >= 1 && table(x) == RuleDef(b, Keep)
    requires Match(table, b, toks, pos, fuel - 1) == Matched(e, ns)
    ensures Match(table, Ref(x), toks, pos, fuel) == Matched(e, [Inner(x, ns)])
  {
  }

  /** A kept rule whose body is a sequence matches as one node over what the sequence matches. */
  lemma RuleOfSeq<R>(table: R -> RuleDef<R>, x: R, items: seq<Expr<R>>, toks: seq<Token>, pos: nat, fuel: nat,
                     e: nat, ns: seq<Node<R>>)
    requires pos <= |toks| && fuel >= 1 && table(x) == RuleDef(Seq(items), Keep)
    requires MatchSeq(table, items, toks, pos, fuel - 1) == Matched(e, ns)
    ensures Match(table, Ref(x), toks, pos, fuel) == Matched(e, [Inner(x, ns)])
  {
  }

  /** A repetition that consumed something goes on from where the body stopped. */
  lemma LoopStep<R>(table: R -> RuleDef<R>, b: Expr<R>, toks: seq<Token>, pos: nat, p: nat, ns: seq<Node<R>>,
                    e: nat, ms: seq<Node<R>>, fuel: nat)
    requires pos <= |toks| && p != pos
    requires Match(table, b, toks, pos, fuel) == Matched(p, ns)
    requires MatchLoop(table, b, toks, p, fuel) == Matched(e, ms)
    ensures MatchLoop(table, b, toks, pos, fuel) == Matched(e, ns + ms)
  {
  }

  /** A repetition stops, matching nothing more, where its body refuses. */
  lemma LoopStops<R>(table: R -> RuleDef<R>, b: Expr<R>, toks: seq<Token>, pos: nat, fuel: nat)
    requires pos <= |toks| && Refuses(table, b, toks, pos, fuel)
    ensures MatchLoop(table, b, toks, pos, fuel) == Matched(pos, [])
  {
    RefusedFails(table, b, toks, pos, fuel);
  }

  /** One or more repetitions: the first is required, the rest is the repetition from where it stopped. */
  lemma RepeatMatch<R>(table: R -> RuleDef<R>, b: Expr<R>, toks: seq<Token>, pos: nat, p: nat, ns: seq<Node<R>>,
                       e: nat, ms: seq<Node<R>>, fuel: nat)
    requires pos <= |toks|
    requires Match(table, b, toks, pos, fuel) == Matched(p, ns)
    requires MatchLoop(table, b, toks, p, fuel) == Matched(e, ms)
    ensures Match(table, OneOrMore(b), toks, pos, fuel) == Matched(e, ns + ms)
  {
  }

  /**
   * A rule whose body is a choice takes alternative i when every earlier
   * alternative fails and alternative i matches.
   */
  lemma ChoiceTakes<R>(table: R -> RuleDef<R>, x: R, alts: seq<Expr<R>>, i: nat, toks: seq<Token>, pos: nat, fuel: nat,
                       e: nat, ns: seq<Node<R>>)
    requires pos <= |toks| && fuel >= 1 && table(x).body == FirstOf(alts) && i < |alts|
    requires forall j :: 0 <= j < i ==> Match(table, alts[j], toks, pos, fuel - 1) == NoMatch
    requires Match(table, alts[i], toks, pos, fuel - 1) == Matched(e, ns)
    ensures Match(table, Ref(x), toks, pos, fuel) == Matched(e, Splice(x, table(x).policy, ns))
  {
    FirstSkipsFailures(table, alts, toks, pos, fuel - 1, i);
    assert alts[i..][0] == alts[i];
  }
}
