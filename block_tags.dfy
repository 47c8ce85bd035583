/**
 * The tags of the block grammar. Every tag is one brace group: block openers
 * `{#if c}` and `{#match e}`, closers `{/if}` and `{/match}`, and dividers
 * `{:else}`, `{:else if c}` and `{:case p}`. A tag is recognised by looking
 * at the first two or three tokens inside the group ahead without consuming
 * it; it is parsed by opening the group, reading its tokens, and requiring
 * the contents to be used up.
 */
module BlockTags {
  import opened Tokens
  import opened Collaborators

  /** The contents of the brace group ahead, on a fork; nothing when no brace group is next. */
  function InsideBraces(ts: seq<Token>, pos: nat): (r: Option<seq<Token>>)
    ensures r.Some? <==> IsBrace(ts, pos)
    ensures r.Some? ==> r.value == ts[pos].inner
  {
    if IsBrace(ts, pos) then Some(ts[pos].inner) else None
  }

  /** A brace group ahead whose contents begin with punctuation `c` and the word `w`. */
  predicate TagAhead(ts: seq<Token>, pos: nat, c: char, w: string) {
    var inner := InsideBraces(ts, pos);
    inner.Some? && IsPunct(inner.value, 0, c) && IsWord(inner.value, 1, w)
  }

  predicate IfOpeningPeek(ts: seq<Token>, pos: nat) {
    TagAhead(ts, pos, '#', "if")
  }

  predicate IfClosingPeek(ts: seq<Token>, pos: nat) {
    TagAhead(ts, pos, '/', "if")
  }

  /** `{:else if ...}` */
  predicate ElseIfPeek(ts: seq<Token>, pos: nat) {
    TagAhead(ts, pos, ':', "else") && IsWord(ts[pos].inner, 2, "if")
  }

  /** `{:else}`, recognised only when no `if` follows the `else`, so at most one of the two divider peeks holds. */
  predicate ElsePeek(ts: seq<Token>, pos: nat)
    ensures ElsePeek(ts, pos) ==> !ElseIfPeek(ts, pos)
  {
    TagAhead(ts, pos, ':', "else") && !IsWord(ts[pos].inner, 2, "if")
  }

  predicate IfDividerPeek(ts: seq<Token>, pos: nat) {
    ElsePeek(ts, pos) || ElseIfPeek(ts, pos)
  }

  predicate MatchOpeningPeek(ts: seq<Token>, pos: nat) {
    TagAhead(ts, pos, '#', "match")
  }

  predicate MatchClosingPeek(ts: seq<Token>, pos: nat) {
    TagAhead(ts, pos, '/', "match")
  }

  /** `{:case ...}`; `case` is a contextual keyword matched by its spelling. */
  predicate CasePeek(ts: seq<Token>, pos: nat) {
    TagAhead(ts, pos, ':', "case")
  }

  // ----- parsing the tags -----

  /** The punctuation and the keyword a tag's contents begin with. */
  function ExpectTagWords(inner: seq<Token>, c: char, w: string): (r: PResult<()>)
    ensures r.Success? <==> IsPunct(inner, 0, c) && IsWord(inner, 1, w)
    ensures r.Success? ==> r.next == 2
    ensures r.Failure? ==> r.error != OutOfFuel
  {
    match ExpectPunct(inner, 0, c)
    case Failure(e) => Failure(e)
    case Success(_, p) => ExpectWord(inner, p, w)
  }

  /** A tag made of its two words and nothing else: `{/if}`, `{:else}`, `{/match}`. */
  function ParseBareTag(ts: seq<Token>, pos: nat, c: char, w: string): (r: PResult<()>)
    ensures r.Success? <==> TagAhead(ts, pos, c, w) && |ts[pos].inner| == 2
    ensures r.Success? ==> r.next == pos + 1
    ensures r.Failure? ==> r.error != OutOfFuel
  {
    match Braced(ts, pos)
    case Failure(e) => Failure(e)
    case Success(inner, p) =>
      match Finished(inner, ExpectTagWords(inner, c, w))
      case Failure(e) => Failure(e)
      case Success(_, _) => Success((), p)
  }

  /** A tag made of its words, more words `extra`, and an expression that uses up the group. */
  function ParseExprTag(ts: seq<Token>, pos: nat, c: char, w: string, extra: seq<string>): (r: PResult<seq<Token>>)
    ensures r.Success? ==> TagAhead(ts, pos, c, w) && r.next == pos + 1
    ensures r.Success? ==> |ts[pos].inner| == 2 + |extra| + |r.value| && 0 < |r.value|
    ensures r.Success? ==> ts[pos].inner[2 + |extra|..] == r.value
    ensures r.Success? ==> forall k :: 0 <= k < |extra| ==> ts[pos].inner[2 + k] == Ident(extra[k])
    ensures r.Failure? ==> r.error != OutOfFuel
  {
    match Braced(ts, pos)
    case Failure(e) => Failure(e)
    case Success(inner, p) =>
      match ExpectTagWords(inner, c, w)
      case Failure(e) => Failure(e)
      case Success(_, q) =>
        match ExpectWords(inner, q, extra)
        case Failure(e) => Failure(e)
        case Success(_, q') =>
          match Finished(inner, ParseExpr(inner, q'))
          case Failure(e) => Failure(e)
          case Success(x, _) => Success(x, p)
  }

  /** Keywords in a row, such as the `if` of `{:else if ...}`. */
  function ExpectWords(inner: seq<Token>, pos: nat, ws: seq<string>): (r: PResult<()>)
    ensures r.Success? <==> forall k :: 0 <= k < |ws| ==> IsWord(inner, pos + k, ws[k])
    ensures r.Success? ==> r.next == pos + |ws|
    decreases |ws|
    ensures r.Failure? ==> r.error != OutOfFuel
  {
    if ws == [] then Success((), pos)
    else
      match ExpectWord(inner, pos, ws[0])
      case Failure(e) => Failure(e)
      case Success(_, p) =>
        var r := ExpectWords(inner, p, ws[1..]);
        assert forall k :: 1 <= k < |ws| ==> ws[k] == ws[1..][k - 1];
        r
  }

  /** `{#if condition}`: the condition. */
  function ParseIfOpening(ts: seq<Token>, pos: nat): (r: PResult<seq<Token>>)
    ensures r.Success? ==> IfOpeningPeek(ts, pos)
    ensures r.Failure? ==> r.error != OutOfFuel
    ensures r.Success? ==> r.next == pos + 1
  {
    ParseExprTag(ts, pos, '#', "if", [])
  }

  function ParseIfClosing(ts: seq<Token>, pos: nat): (r: PResult<()>)
    ensures r.Success? <==> IfClosingPeek(ts, pos) && |ts[pos].inner| == 2
    ensures r.Success? ==> r.next == pos + 1
    ensures r.Failure? ==> r.error != OutOfFuel
  {
    ParseBareTag(ts, pos, '/', "if")
  }

  datatype IfDivider = Else | ElseIf(condition: seq<Token>)

  /** `{:else if ...}` is tried before `{:else}`; anything else is refused. */
  function ParseIfDivider(ts: seq<Token>, pos: nat): (r: PResult<IfDivider>)
    ensures r.Success? ==> IfDividerPeek(ts, pos) && r.next == pos + 1
    ensures r.Success? ==> (r.value.ElseIf? <==> ElseIfPeek(ts, pos))
    ensures !IfDividerPeek(ts, pos) ==> r == Failure(ExpectedIfDivider)
    ensures r.Failure? ==> r.error != OutOfFuel
  {
    if ElseIfPeek(ts, pos) then
      match ParseExprTag(ts, pos, ':', "else", ["if"])
      case Failure(e) => Failure(e)
      case Success(c, p) => Success(ElseIf(c), p)
    else if ElsePeek(ts, pos) then
      match ParseBareTag(ts, pos, ':', "else")
      case Failure(e) => Failure(e)
      case Success(_, p) => Success(Else, p)
    else Failure(ExpectedIfDivider)
  }

  /** `{#match scrutinee}`: the scrutinee. */
  function ParseMatchOpening(ts: seq<Token>, pos: nat): (r: PResult<seq<Token>>)
    ensures r.Success? ==> MatchOpeningPeek(ts, pos)
    ensures r.Failure? ==> r.error != OutOfFuel
    ensures r.Success? ==> r.next == pos + 1
  {
    ParseExprTag(ts, pos, '#', "match", [])
  }

  function ParseMatchClosing(ts: seq<Token>, pos: nat): (r: PResult<()>)
    ensures r.Success? <==> MatchClosingPeek(ts, pos) && |ts[pos].inner| == 2
    ensures r.Success? ==> r.next == pos + 1
    ensures r.Failure? ==> r.error != OutOfFuel
  {
    ParseBareTag(ts, pos, '/', "match")
  }

  /**
   * `{:case pattern}`: the pattern, which uses up the group. There is no
   * guard: a pattern ends before `if`, and what follows it is left over.
   */
  function ParseCase(ts: seq<Token>, pos: nat): (r: PResult<seq<Token>>)
    ensures r.Success? ==> CasePeek(ts, pos)
    ensures r.Failure? ==> r.error != OutOfFuel
    ensures r.Success? ==> r.next == pos + 1
    ensures r.Success? ==> 0 < |r.value| && ts[pos].inner[2..] == r.value
    ensures r.Success? ==> forall k :: 0 <= k < |r.value| ==> r.value[k] != Ident("if")
  {
    match Braced(ts, pos)
    case Failure(e) => Failure(e)
    case Success(inner, p) =>
      match ExpectTagWords(inner, ':', "case")
      case Failure(e) => Failure(e)
      case Success(_, q) =>
        match Finished(inner, ParsePattern(inner, q))
        case Failure(e) => Failure(e)
        case Success(x, _) => Success(x, p)
  }

  // ----- printing and reading back -----

  function PrintExprTag(c: char, w: string, extra: seq<string>, e: seq<Token>): (t: Token)
    ensures t.Group? && t.delim == Brace
  {
    Group(Brace, [Punct(c), Ident(w)] + Words(extra) + e)
  }

  function Words(ws: seq<string>): (s: seq<Token>)
    ensures |s| == |ws| && forall k :: 0 <= k < |ws| ==> s[k] == Ident(ws[k])
  {
    if ws == [] then [] else [Ident(ws[0])] + Words(ws[1..])
  }

  /** A tag printed around a well-formed expression is read back with it. */
  lemma ExprTagRoundTrip(ts: seq<Token>, pos: nat, c: char, w: string, extra: seq<string>, e: seq<Token>)
    requires WellFormedExpr(e)
    requires pos < |ts| && ts[pos] == PrintExprTag(c, w, extra, e)
    ensures ParseExprTag(ts, pos, c, w, extra) == Success(e, pos + 1)
  {
    var inner := ts[pos].inner;
    var k := 2 + |extra|;
    assert inner[0] == Punct(c) && inner[1] == Ident(w);
    forall j | 0 <= j < |extra|
      ensures IsWord(inner, 2 + j, extra[j])
    {
      assert inner[2 + j] == Words(extra)[j];
    }
    assert inner[k..k + |e|] == e;
    ParseExprEmbedded(inner, k, e);
  }

  /** A case tag printed around a well-formed pattern is read back with it. */
  lemma CaseRoundTrip(ts: seq<Token>, pos: nat, p: seq<Token>)
    requires WellFormedPattern(p)
    requires pos < |ts| && ts[pos] == PrintExprTag(':', "case", [], p)
    ensures ParseCase(ts, pos) == Success(p, pos + 1)
  {
    var inner := ts[pos].inner;
    assert inner[0] == Punct(':') && inner[1] == Ident("case");
    assert inner[2..2 + |p|] == p;
    ParsePatternEmbedded(inner, 2, p);
  }

  /**
   * A guard after the pattern is not read: the pattern stops at `if`, and the
   * guard is left over in the group, which is the unexpected-token error.
   */
  lemma CaseGuardRefused(ts: seq<Token>, pos: nat, p: seq<Token>, guard: seq<Token>)
    requires WellFormedPattern(p)
    requires pos < |ts| && ts[pos] == Group(Brace, [Punct(':'), Ident("case")] + p + [Ident("if")] + guard)
    ensures ParseCase(ts, pos) == Failure(UnexpectedToken)
  {
    var inner := ts[pos].inner;
    assert inner[0] == Punct(':') && inner[1] == Ident("case");
    assert inner[2..2 + |p|] == p;
    assert inner[2 + |p|] == Ident("if");
    ParsePatternEmbedded(inner, 2, p);
  }

  /** Every printed tag is recognised by its own peek. */
  lemma ExprTagPeek(ts: seq<Token>, pos: nat, c: char, w: string, extra: seq<string>, e: seq<Token>)
    requires pos < |ts| && ts[pos] == PrintExprTag(c, w, extra, e)
    ensures TagAhead(ts, pos, c, w)
    ensures |extra| > 0 ==> IsWord(ts[pos].inner, 2, extra[0])
  {
    var inner := ts[pos].inner;
    assert inner[0] == Punct(c) && inner[1] == Ident(w);
    if |extra| > 0 {
      assert inner[2] == Words(extra)[0];
    }
  }
}
