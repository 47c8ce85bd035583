/**
 * The recursive part of the template grammar: children, elements,
 * fragments, blocks and the root.
 *
 * `Grammar` selects between the variants the repository contains:
 *
 *  - `blocks`: `IfOnly` is the compiled block module, which knows `{#if}`
 *    only; `IfAndMatch` is the newer module that adds `{#match}`;
 *  - `childBlocks`: whether a child may itself be a block. The child
 *    dispatch as written has no such case (`false`); `true` is the dispatch
 *    the nested-block examples need, trying a block before a mustache since
 *    both begin with a brace group;
 *  - `nonEmptyText`: whether a text child that would consume nothing is an
 *    error. As written (`false`) it succeeds empty, so a loop over children
 *    that meets a stray `>` or a mismatched closing tag never ends; `true`
 *    makes every successful child consume a token.
 *
 * Every parser takes `fuel`, a bound on the nesting depth and on the
 * rounds of each loop: the source's loops are unbounded and some of them
 * can spin, so running out of fuel is an outcome of its own.
 */
module Markup {
  import opened Tokens
  import opened Collaborators
  import opened Combinators
  import opened Interpolation
  import opened MarkupLeaves
  import opened BlockTags

  datatype BlockSet = IfOnly | IfAndMatch

  datatype Grammar = Grammar(childBlocks: bool, nonEmptyText: bool, blocks: BlockSet)

  datatype Child =
    | Text(tokens: seq<Token>)
    | Element(element: Element)
    | Fragment(children: seq<Child>)
    | Interp(mustache: Mustache)
    | Comment(contents: seq<Token>)
    | BlockChild(block: Block)

  datatype Element =
    | Closed(name: seq<string>, attrs: seq<Attribute>, children: seq<Child>, closingName: seq<string>)
    | SelfClosing(name: seq<string>, attrs: seq<Attribute>)

  datatype Block = If(ifBlock: IfBlock) | Match(matchBlock: MatchBlock)

  datatype IfBlock = IfBlock(condition: seq<Token>, children: seq<Child>, dividers: seq<(IfDivider, seq<Child>)>)

  datatype MatchBlock = MatchBlock(scrutinee: seq<Token>, comments: seq<seq<Token>>, cases: seq<(seq<Token>, seq<Child>)>)

  datatype Root = RootElement(element: Element) | RootFragment(children: seq<Child>)

  // ----- peeks and loop items -----

  /** `<` `/` `>` ahead. */
  predicate FragmentCloser(ts: seq<Token>, p: nat) {
    IsPunct(ts, p, '<') && IsPunct(ts, p + 1, '/') && IsPunct(ts, p + 2, '>')
  }

  function FragmentCloserAt(ts: seq<Token>): (stop: nat -> bool)
    ensures forall p: nat :: stop(p) == FragmentCloser(ts, p)
  {
    (p: nat) => FragmentCloser(ts, p)
  }

  /**
   * Where the children of element `name` stop: at the end of the input, or
   * at a closing tag whose path cannot be read (the source then panics) or
   * whose path agrees with `name`.
   */
  predicate CloseStop(ts: seq<Token>, name: seq<string>, p: nat) {
    p >= |ts| ||
    (CloserCandidate(ts, p) && (ParsePath(ts, p + 2).Failure? || NamesMatch(ParsePath(ts, p + 2).value, name)))
  }

  function CloseStopAt(ts: seq<Token>, name: seq<string>): (stop: nat -> bool)
    ensures forall p: nat :: stop(p) == CloseStop(ts, name, p)
  {
    (p: nat) => CloseStop(ts, name, p)
  }

  predicate BlockPeek(blocks: BlockSet, ts: seq<Token>, p: nat) {
    IfOpeningPeek(ts, p) || (blocks == IfAndMatch && MatchOpeningPeek(ts, p))
  }

  function IfDividerPeekAt(ts: seq<Token>): (peek: nat -> bool)
    ensures forall p: nat :: peek(p) == IfDividerPeek(ts, p)
  {
    (p: nat) => IfDividerPeek(ts, p)
  }

  function IfClosingPeekAt(ts: seq<Token>): (peek: nat -> bool)
    ensures forall p: nat :: peek(p) == IfClosingPeek(ts, p)
  {
    (p: nat) => IfClosingPeek(ts, p)
  }

  function IfDividerAt(ts: seq<Token>): (item: nat -> PResult<IfDivider>)
    ensures forall p: nat :: item(p) == ParseIfDivider(ts, p)
  {
    (p: nat) => ParseIfDivider(ts, p)
  }

  function MatchClosingPeekAt(ts: seq<Token>): (peek: nat -> bool)
    ensures forall p: nat :: peek(p) == MatchClosingPeek(ts, p)
  {
    (p: nat) => MatchClosingPeek(ts, p)
  }

  function CasePeekAt(ts: seq<Token>): (peek: nat -> bool)
    ensures forall p: nat :: peek(p) == CasePeek(ts, p)
  {
    (p: nat) => CasePeek(ts, p)
  }

  function CaseAt(ts: seq<Token>): (item: nat -> PResult<seq<Token>>)
    ensures forall p: nat :: item(p) == ParseCase(ts, p)
  {
    (p: nat) => ParseCase(ts, p)
  }

  function CommentAt(ts: seq<Token>): (item: nat -> PResult<seq<Token>>)
    ensures forall p: nat :: item(p) == ParseComment(ts, p)
  {
    (p: nat) => ParseComment(ts, p)
  }

  /** The child parser as a loop item. */
  function ChildAt(g: Grammar, ts: seq<Token>, fuel: nat): (item: nat -> PResult<Child>)
    ensures forall p: nat :: item(p) == ParseChild(g, ts, p, fuel)
    decreases fuel, 1
  {
    (p: nat) => ParseChild(g, ts, p, fuel)
  }

  // ----- the parsers -----

  /**
   * A child, by the first peek that holds: `<>` a fragment, `<` and an
   * identifier an element, a block opener a block (when children may be
   * blocks), a brace group a mustache, `<!--` a comment, anything else text
   * (refused when empty, if the grammar says so).
   */
  function ParseChild(g: Grammar, ts: seq<Token>, pos: nat, fuel: nat): (r: PResult<Child>)
    ensures r.Success? && r.value.Fragment? ==> IsPunct(ts, pos, '<') && IsPunct(ts, pos + 1, '>')
    ensures r.Success? && r.value.Element? ==> IsPunct(ts, pos, '<') && IsIdent(ts, pos + 1)
    ensures r.Success? && r.value.BlockChild? ==> g.childBlocks && BlockPeek(g.blocks, ts, pos)
    ensures r.Success? && r.value.Interp? ==> IsBrace(ts, pos) && !(g.childBlocks && BlockPeek(g.blocks, ts, pos))
    ensures r.Success? && r.value.Comment? ==> CommentPeek(ts, pos) && !IsIdent(ts, pos + 1)
    ensures r.Success? && r.value.Text? ==>
      !IsBrace(ts, pos) && !CommentPeek(ts, pos) && !(IsPunct(ts, pos, '<') && (IsPunct(ts, pos + 1, '>') || IsIdent(ts, pos + 1)))
    ensures r.Success? && r.value.Text? && g.nonEmptyText ==> r.value.tokens != []
    decreases fuel, 0
  {
    if fuel == 0 then Failure(OutOfFuel)
    else if IsPunct(ts, pos, '<') && IsPunct(ts, pos + 1, '>') then
      match ParseFragment(g, ts, pos, fuel - 1)
      case Failure(e) => Failure(e)
      case Success(cs, p) => Success(Fragment(cs), p)
    else if IsPunct(ts, pos, '<') && IsIdent(ts, pos + 1) then
      match ParseElement(g, ts, pos, fuel - 1)
      case Failure(e) => Failure(e)
      case Success(el, p) => Success(Element(el), p)
    else if g.childBlocks && BlockPeek(g.blocks, ts, pos) then
      match ParseBlock(g, ts, pos, fuel - 1)
      case Failure(e) => Failure(e)
      case Success(b, p) => Success(BlockChild(b), p)
    else if IsBrace(ts, pos) then
      match ParseMustache(ts, pos)
      case Failure(e) => Failure(e)
      case Success(m, p) => Success(Interp(m), p)
    else if CommentPeek(ts, pos) then
      match ParseComment(ts, pos)
      case Failure(e) => Failure(e)
      case Success(c, p) => Success(Comment(c), p)
    else
      match ParseText(ts, pos)
      case Failure(e) => Failure(e)
      case Success(t, p) => if g.nonEmptyText && t == [] then Failure(UnexpectedToken) else Success(Text(t), p)
  }

  /** `<>`, children until `</>`, and `</>`. */
  function ParseFragment(g: Grammar, ts: seq<Token>, pos: nat, fuel: nat): (r: PResult<seq<Child>>)
    ensures r.Success? ==> IsPunct(ts, pos, '<') && IsPunct(ts, pos + 1, '>')
    ensures r.Success? ==> 3 <= r.next && FragmentCloser(ts, r.next - 3)
    decreases fuel, 2
  {
    match ExpectPuncts(ts, pos, ['<', '>'])
    case Failure(e) => Failure(e)
    case Success(_, p) =>
      match ParseUntil(FragmentCloserAt(ts), ChildAt(g, ts, fuel), p, fuel)
      case Failure(e) => Failure(e)
      case Success(children, q) =>
        UntilSound(FragmentCloserAt(ts), ChildAt(g, ts, fuel), p, fuel);
        match ExpectPuncts(ts, q, ['<', '/', '>'])
        case Failure(e) => Failure(e)
        case Success(_, q') => Success(children, q')
  }

  /**
   * The form of an element is chosen by reading its start on a fork: `/`
   * after the attributes makes it self-closing, `>` makes it closed; the
   * element is then parsed again from its first token.
   */
  function ParseElement(g: Grammar, ts: seq<Token>, pos: nat, fuel: nat): (r: PResult<Element>)
    ensures r.Success? ==> ParseTagStart(ts, pos).Success?
    ensures r.Success? ==> (r.value.SelfClosing? <==> IsPunct(ts, ParseTagStart(ts, pos).next, '/'))
    decreases fuel, 3
  {
    match ParseTagStart(ts, pos)
    case Failure(e) => Failure(e)
    case Success(_, p) =>
      if IsPunct(ts, p, '/') then
        match ParseSelfClosing(ts, pos)
        case Failure(e) => Failure(e)
        case Success(tag, q) => Success(SelfClosing(tag.0, tag.1), q)
      else if IsPunct(ts, p, '>') then
        ParseClosed(g, ts, pos, fuel)
      else assert false; Failure(ExpectedTagEnd)
  }

  /**
   * The opening tag, then children until the input ends (an error naming
   * the element) or a closing tag whose name agrees with the opening name
   * over the shorter of the two paths; that tag is then read.
   */
  function ParseClosed(g: Grammar, ts: seq<Token>, pos: nat, fuel: nat): (r: PResult<Element>)
    ensures r.Success? ==> ParseOpening(ts, pos).Success? && r.value.Closed?
    ensures r.Success? ==> r.value.name == ParseOpening(ts, pos).value.0 && r.value.attrs == ParseOpening(ts, pos).value.1
    ensures r.Success? ==> NamesMatch(r.value.closingName, r.value.name) && 0 < r.next && IsPunct(ts, r.next - 1, '>')
    decreases fuel, 2
  {
    match ParseOpening(ts, pos)
    case Failure(e) => Failure(e)
    case Success(tag, p) =>
      match ParseUntil(CloseStopAt(ts, tag.0), ChildAt(g, ts, fuel), p, fuel)
      case Failure(e) => Failure(e)
      case Success(children, q) =>
        UntilSound(CloseStopAt(ts, tag.0), ChildAt(g, ts, fuel), p, fuel);
        CloseAfter(g, ts, tag, children, q)
  }

  /** The source unwraps the path of a closing tag it read on a fork. */
  const ClosingPathPanic := Panic("unwrap on a closing tag whose path does not parse")

  /** What the element loop does where its children stop. */
  function CloseAfter(g: Grammar, ts: seq<Token>, tag: (seq<string>, seq<Attribute>), children: seq<Child>, q: nat): (r: PResult<Element>)
    requires CloseStop(ts, tag.0, q)
    ensures q >= |ts| ==> r == Failure(Unclosed(tag.0))
    ensures r.Success? ==> r.value.Closed? && r.value.name == tag.0 && r.value.attrs == tag.1 && r.value.children == children
    ensures r.Success? ==> NamesMatch(r.value.closingName, tag.0) && q < r.next && IsPunct(ts, r.next - 1, '>')
  {
    if q >= |ts| then Failure(Unclosed(tag.0))
    else if ParsePath(ts, q + 2).Failure? then Failure(ClosingPathPanic)
    else
      match ParseClosing(ts, q)
      case Failure(e) => Failure(e)
      case Success(closing, q') => Success(Closed(tag.0, tag.1, children, closing), q')
  }

  /** An if block when its opener is ahead, else a match block when that set has one, else a panic. */
  function ParseBlock(g: Grammar, ts: seq<Token>, pos: nat, fuel: nat): (r: PResult<Block>)
    ensures r.Success? ==> BlockPeek(g.blocks, ts, pos)
    ensures r.Success? ==> (r.value.If? <==> IfOpeningPeek(ts, pos))
    ensures !BlockPeek(g.blocks, ts, pos) ==> r.Failure? && r.error.Panic?
    decreases fuel, 3
  {
    if IfOpeningPeek(ts, pos) then
      match ParseIf(g, ts, pos, fuel)
      case Failure(e) => Failure(e)
      case Success(b, p) => Success(If(b), p)
    else if g.blocks == IfAndMatch && MatchOpeningPeek(ts, pos) then
      match ParseMatch(g, ts, pos, fuel)
      case Failure(e) => Failure(e)
      case Success(b, p) => Success(Match(b), p)
    else Failure(Panic("unimplemented block"))
  }

  /**
   * The opener, children until a divider or the closer, dividers (each with
   * its children) until the closer, and the closer.
   */
  function ParseIf(g: Grammar, ts: seq<Token>, pos: nat, fuel: nat): (r: PResult<IfBlock>)
    ensures r.Success? ==> IfOpeningPeek(ts, pos) && 0 < r.next && IfClosingPeek(ts, r.next - 1)
    decreases fuel, 2
  {
    match ParseIfOpening(ts, pos)
    case Failure(e) => Failure(e)
    case Success(cond, p) =>
      match ParseUntil(Or(IfDividerPeekAt(ts), IfClosingPeekAt(ts)), ChildAt(g, ts, fuel), p, fuel)
      case Failure(e) => Failure(e)
      case Success(children, q) =>
        match ParseDividedUntil(IfClosingPeekAt(ts), IfDividerPeekAt(ts), IfDividerAt(ts), ChildAt(g, ts, fuel), q, fuel)
        case Failure(e) => Failure(e)
        case Success(dividers, q') =>
          match ParseIfClosing(ts, q')
          case Failure(e) => Failure(e)
          case Success(_, q'') => Success(IfBlock(cond, children, dividers), q'')
  }

  /**
   * The opener, comments (and nothing else) until a case or the closer, cases
   * (each with its children) until the closer, and the closer.
   */
  function ParseMatch(g: Grammar, ts: seq<Token>, pos: nat, fuel: nat): (r: PResult<MatchBlock>)
    ensures r.Success? ==> MatchOpeningPeek(ts, pos) && 0 < r.next && MatchClosingPeek(ts, r.next - 1)
    decreases fuel, 2
  {
    match ParseMatchOpening(ts, pos)
    case Failure(e) => Failure(e)
    case Success(scrutinee, p) =>
      match ParseUntil(Or(MatchClosingPeekAt(ts), CasePeekAt(ts)), CommentAt(ts), p, fuel)
      case Failure(e) => Failure(e)
      case Success(comments, q) =>
        match ParseDividedUntil(MatchClosingPeekAt(ts), CasePeekAt(ts), CaseAt(ts), ChildAt(g, ts, fuel), q, fuel)
        case Failure(e) => Failure(e)
        case Success(cases, q') =>
          match ParseMatchClosing(ts, q')
          case Failure(e) => Failure(e)
          case Success(_, q'') => Success(MatchBlock(scrutinee, comments, cases), q'')
  }

  /** The root is a fragment (`<>`) or an element (`<` and an identifier); nothing else. */
  function ParseRoot(g: Grammar, ts: seq<Token>, pos: nat, fuel: nat): (r: PResult<Root>)
    ensures r.Success? ==> IsPunct(ts, pos, '<')
    ensures r.Success? ==> (r.value.RootFragment? <==> IsPunct(ts, pos + 1, '>'))
    ensures r.Success? && r.value.RootElement? ==> IsIdent(ts, pos + 1)
    ensures !(IsPunct(ts, pos, '<') && (IsPunct(ts, pos + 1, '>') || IsIdent(ts, pos + 1))) ==> r == Failure(ExpectedRoot)
  {
    if IsPunct(ts, pos, '<') && IsPunct(ts, pos + 1, '>') then
      match ParseFragment(g, ts, pos, fuel)
      case Failure(e) => Failure(e)
      case Success(cs, p) => Success(RootFragment(cs), p)
    else if IsPunct(ts, pos, '<') && IsIdent(ts, pos + 1) then
      match ParseElement(g, ts, pos, fuel)
      case Failure(e) => Failure(e)
      case Success(el, p) => Success(RootElement(el), p)
    else Failure(ExpectedRoot)
  }
}
