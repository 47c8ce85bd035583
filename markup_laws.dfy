/**
 * What the grammar of children, elements and blocks promises: which
 * inputs make its loops spin as written, that the corrected grammar always
 * ends, and the behaviour of nested blocks in both.
 */
module MarkupLaws {
  import opened Tokens
  import opened Collaborators
  import opened Combinators
  import opened Interpolation
  import opened MarkupLeaves
  import opened BlockTags
  import opened Markup

  /**
   * A parse that ends of its own accord: it fails with an error other than
   * running out of fuel, or it succeeds having consumed at least one token
   * and no more than the input holds.
   */
  predicate Settles<T>(r: PResult<T>, pos: nat, bound: nat) {
    (r.Failure? ==> r.error != OutOfFuel) && (r.Success? ==> pos < r.next <= bound)
  }

  /** Text is the stretch up to the first stop; it fails only at the end of the input. */
  lemma TextSettles(ts: seq<Token>, pos: nat)
    requires pos <= |ts|
    ensures var r := ParseText(ts, pos);
      (r.Failure? ==> r.error == UnexpectedEnd) && (r.Success? ==> pos <= r.next <= |ts| && r.value == ts[pos..r.next])
  {
    TextSpec(ts, pos, Budget(ts, pos));
  }

  // ----- the corrected grammar always ends -----

  /**
   * With empty text refused, every child ends, given fuel above the number
   * of tokens left: no loop over children can spin.
   */
  lemma {:induction false} ChildSettles(g: Grammar, ts: seq<Token>, pos: nat, fuel: nat)
    requires g.nonEmptyText && pos <= |ts| && fuel > |ts| - pos
    ensures Settles(ParseChild(g, ts, pos, fuel), pos, |ts|)
    decreases fuel, 0
  {
    if IsPunct(ts, pos, '<') && IsPunct(ts, pos + 1, '>') {
      FragmentSettles(g, ts, pos, fuel - 1);
    } else if IsPunct(ts, pos, '<') && IsIdent(ts, pos + 1) {
      ElementSettles(g, ts, pos, fuel - 1);
    } else if g.childBlocks && BlockPeek(g.blocks, ts, pos) {
      BlockSettles(g, ts, pos, fuel - 1);
    } else {
      LeafChildSettles(g, ts, pos, fuel);
    }
  }

  /** A mustache, a comment or a text child ends without recursion. */
  lemma LeafChildSettles(g: Grammar, ts: seq<Token>, pos: nat, fuel: nat)
    requires g.nonEmptyText && pos <= |ts| && fuel > 0
    requires !(IsPunct(ts, pos, '<') && (IsPunct(ts, pos + 1, '>') || IsIdent(ts, pos + 1)))
    requires !(g.childBlocks && BlockPeek(g.blocks, ts, pos))
    ensures Settles(ParseChild(g, ts, pos, fuel), pos, |ts|)
  {
    if !IsBrace(ts, pos) && !CommentPeek(ts, pos) {
      TextSettles(ts, pos);
    }
  }

  /** Every child from `lo` on ends, which is what the loops over children need. */
  lemma {:induction false} ChildrenSettle(g: Grammar, ts: seq<Token>, lo: nat, fuel: nat)
    requires g.nonEmptyText && lo <= |ts| && fuel > |ts| - lo
    ensures forall p: nat :: lo <= p <= |ts| ==> Settles(ChildAt(g, ts, fuel)(p), p, |ts|)
    decreases fuel, 1
  {
    forall p: nat | lo <= p <= |ts|
      ensures Settles(ChildAt(g, ts, fuel)(p), p, |ts|)
    {
      ChildSettles(g, ts, p, fuel);
    }
  }

  lemma {:induction false} FragmentSettles(g: Grammar, ts: seq<Token>, pos: nat, fuel: nat)
    requires g.nonEmptyText && pos <= |ts| && fuel >= |ts| - pos
    ensures Settles(ParseFragment(g, ts, pos, fuel), pos, |ts|)
    decreases fuel, 2
  {
    if IsPunct(ts, pos, '<') && IsPunct(ts, pos + 1, '>') {
      ChildrenSettle(g, ts, pos + 2, fuel);
      UntilProgress(FragmentCloserAt(ts), ChildAt(g, ts, fuel), pos + 2, fuel, |ts|);
    }
  }

  lemma {:induction false} ElementSettles(g: Grammar, ts: seq<Token>, pos: nat, fuel: nat)
    requires g.nonEmptyText && pos <= |ts| && fuel >= |ts| - pos
    ensures Settles(ParseElement(g, ts, pos, fuel), pos, |ts|)
    decreases fuel, 3
  {
    var t := ParseTagStart(ts, pos);
    if t.Success? && !IsPunct(ts, t.next, '/') && IsPunct(ts, t.next, '>') {
      ClosedSettles(g, ts, pos, fuel);
    }
  }

  lemma {:induction false} ClosedSettles(g: Grammar, ts: seq<Token>, pos: nat, fuel: nat)
    requires g.nonEmptyText && pos <= |ts| && fuel >= |ts| - pos
    ensures Settles(ParseClosed(g, ts, pos, fuel), pos, |ts|)
    decreases fuel, 2
  {
    var o := ParseOpening(ts, pos);
    if o.Success? {
      ChildrenSettle(g, ts, o.next, fuel);
      UntilProgress(CloseStopAt(ts, o.value.0), ChildAt(g, ts, fuel), o.next, fuel, |ts|);
    }
  }

  lemma {:induction false} BlockSettles(g: Grammar, ts: seq<Token>, pos: nat, fuel: nat)
    requires g.nonEmptyText && pos <= |ts| && fuel >= |ts| - pos
    ensures Settles(ParseBlock(g, ts, pos, fuel), pos, |ts|)
    decreases fuel, 3
  {
    if IfOpeningPeek(ts, pos) {
      IfSettles(g, ts, pos, fuel);
    } else if g.blocks == IfAndMatch && MatchOpeningPeek(ts, pos) {
      MatchSettles(g, ts, pos, fuel);
    }
  }

  lemma {:induction false} IfSettles(g: Grammar, ts: seq<Token>, pos: nat, fuel: nat)
    requires g.nonEmptyText && pos <= |ts| && fuel >= |ts| - pos
    ensures Settles(ParseIf(g, ts, pos, fuel), pos, |ts|)
    decreases fuel, 2
  {
    if ParseIfOpening(ts, pos).Success? {
      var stop := Or(IfDividerPeekAt(ts), IfClosingPeekAt(ts));
      ChildrenSettle(g, ts, pos + 1, fuel);
      UntilProgress(stop, ChildAt(g, ts, fuel), pos + 1, fuel, |ts|);
      var c := ParseUntil(stop, ChildAt(g, ts, fuel), pos + 1, fuel);
      if c.Success? {
        DividersSettle(ts);
        DividedProgress(IfClosingPeekAt(ts), IfDividerPeekAt(ts), IfDividerAt(ts), ChildAt(g, ts, fuel), c.next, fuel, |ts|);
      }
    }
  }

  lemma {:induction false} MatchSettles(g: Grammar, ts: seq<Token>, pos: nat, fuel: nat)
    requires g.nonEmptyText && pos <= |ts| && fuel >= |ts| - pos
    ensures Settles(ParseMatch(g, ts, pos, fuel), pos, |ts|)
    decreases fuel, 2
  {
    if ParseMatchOpening(ts, pos).Success? {
      var stop := Or(MatchClosingPeekAt(ts), CasePeekAt(ts));
      CommentsSettle(ts);
      UntilProgress(stop, CommentAt(ts), pos + 1, fuel, |ts|);
      var c := ParseUntil(stop, CommentAt(ts), pos + 1, fuel);
      if c.Success? {
        ChildrenSettle(g, ts, c.next, fuel);
        CasesSettle(ts);
        DividedProgress(MatchClosingPeekAt(ts), CasePeekAt(ts), CaseAt(ts), ChildAt(g, ts, fuel), c.next, fuel, |ts|);
      }
    }
  }

  lemma DividersSettle(ts: seq<Token>)
    ensures forall p: nat :: p <= |ts| ==> Settles(IfDividerAt(ts)(p), p, |ts|)
  {
  }

  lemma CasesSettle(ts: seq<Token>)
    ensures forall p: nat :: p <= |ts| ==> Settles(CaseAt(ts)(p), p, |ts|)
  {
  }

  lemma CommentsSettle(ts: seq<Token>)
    ensures forall p: nat :: p <= |ts| ==> Settles(CommentAt(ts)(p), p, |ts|)
  {
  }

  // ----- what a successful parse consists of -----

  /**
   * A fragment's children are the run of children from just after `<>` up
   * to the first position where `</>` stands (no child starts at a `</>`),
   * and that `</>` ends the fragment.
   */
  lemma FragmentSound(g: Grammar, ts: seq<Token>, pos: nat, fuel: nat)
    requires ParseFragment(g, ts, pos, fuel).Success?
    ensures var r := ParseFragment(g, ts, pos, fuel);
      exists ps :: IsRun(FragmentCloserAt(ts), ChildAt(g, ts, fuel), ps, r.value) &&
        ps[0] == pos + 2 && ps[|r.value|] == r.next - 3 && FragmentCloser(ts, ps[|r.value|])
  {
    UntilSound(FragmentCloserAt(ts), ChildAt(g, ts, fuel), pos + 2, fuel);
  }

  /**
   * A closed element's children are the run of children from just after its
   * opening tag up to the first closing tag whose path agrees with the
   * opening name (no child starts at one, nor at the end of the input), and
   * that closing tag, read there, gives the closing name and ends the element.
   */
  lemma ClosedSound(g: Grammar, ts: seq<Token>, pos: nat, fuel: nat)
    requires ParseClosed(g, ts, pos, fuel).Success?
    ensures var r := ParseClosed(g, ts, pos, fuel);
      exists ps :: IsRun(CloseStopAt(ts, r.value.name), ChildAt(g, ts, fuel), ps, r.value.children) &&
        ps[0] == ParseOpening(ts, pos).next && ps[|r.value.children|] < |ts| &&
        CloseStop(ts, r.value.name, ps[|r.value.children|]) &&
        ParseClosing(ts, ps[|r.value.children|]) == Success(r.value.closingName, r.next)
  {
    var o := ParseOpening(ts, pos);
    UntilSound(CloseStopAt(ts, o.value.0), ChildAt(g, ts, fuel), o.next, fuel);
  }

  /**
   * An if block is its opener, the run of children up to the first divider
   * or closer, the dividers each with the run of children up to the next
   * divider or the closer, and the closer, which ends the block.
   */
  lemma IfSound(g: Grammar, ts: seq<Token>, pos: nat, fuel: nat)
    requires ParseIf(g, ts, pos, fuel).Success?
    ensures var r := ParseIf(g, ts, pos, fuel);
      ParseIfOpening(ts, pos) == Success(r.value.condition, pos + 1) &&
      exists ps, ds, runs ::
        IsRun(Or(IfDividerPeekAt(ts), IfClosingPeekAt(ts)), ChildAt(g, ts, fuel), ps, r.value.children) &&
        IsDividedRun(IfClosingPeekAt(ts), IfDividerPeekAt(ts), IfDividerAt(ts), ChildAt(g, ts, fuel), ds, runs, r.value.dividers) &&
        ps[0] == pos + 1 && ps[|r.value.children|] == ds[0] &&
        ParseIfClosing(ts, ds[|r.value.dividers|]) == Success((), r.next)
  {
    var c := ParseUntil(Or(IfDividerPeekAt(ts), IfClosingPeekAt(ts)), ChildAt(g, ts, fuel), pos + 1, fuel);
    UntilSound(Or(IfDividerPeekAt(ts), IfClosingPeekAt(ts)), ChildAt(g, ts, fuel), pos + 1, fuel);
    DividedSound(IfClosingPeekAt(ts), IfDividerPeekAt(ts), IfDividerAt(ts), ChildAt(g, ts, fuel), c.next, fuel);
  }

  /**
   * A match block is its opener, the run of comments up to the first case or
   * closer, the cases each with the run of children up to the next case or
   * the closer, and the closer, which ends the block.
   */
  lemma MatchSound(g: Grammar, ts: seq<Token>, pos: nat, fuel: nat)
    requires ParseMatch(g, ts, pos, fuel).Success?
    ensures var r := ParseMatch(g, ts, pos, fuel);
      ParseMatchOpening(ts, pos) == Success(r.value.scrutinee, pos + 1) &&
      exists ps, ds, runs ::
        IsRun(Or(MatchClosingPeekAt(ts), CasePeekAt(ts)), CommentAt(ts), ps, r.value.comments) &&
        IsDividedRun(MatchClosingPeekAt(ts), CasePeekAt(ts), CaseAt(ts), ChildAt(g, ts, fuel), ds, runs, r.value.cases) &&
        ps[0] == pos + 1 && ps[|r.value.comments|] == ds[0] &&
        ParseMatchClosing(ts, ds[|r.value.cases|]) == Success((), r.next)
  {
    var c := ParseUntil(Or(MatchClosingPeekAt(ts), CasePeekAt(ts)), CommentAt(ts), pos + 1, fuel);
    UntilSound(Or(MatchClosingPeekAt(ts), CasePeekAt(ts)), CommentAt(ts), pos + 1, fuel);
    DividedSound(MatchClosingPeekAt(ts), CasePeekAt(ts), CaseAt(ts), ChildAt(g, ts, fuel), c.next, fuel);
  }

  /**
   * The corrected grammar ends on every input: given fuel at least the
   * length of the input, the root parse never runs out of it.
   */
  lemma RootSettles(g: Grammar, ts: seq<Token>, fuel: nat)
    requires g.nonEmptyText && fuel >= |ts|
    ensures Settles(ParseRoot(g, ts, 0, fuel), 0, |ts|)
  {
    if IsPunct(ts, 0, '<') && IsPunct(ts, 1, '>') {
      FragmentSettles(g, ts, 0, fuel);
    } else if IsPunct(ts, 0, '<') && IsIdent(ts, 1) {
      ElementSettles(g, ts, 0, fuel);
    }
  }

  // ----- as written, a child can consume nothing -----

  /** Where a child is text that stops at once: a stray `>`, or a `<` that begins no tag and no comment. */
  predicate Stalls(ts: seq<Token>, pos: nat) {
    IsPunct(ts, pos, '>') ||
    (IsPunct(ts, pos, '<') && !IsPunct(ts, pos + 1, '>') && !IsIdent(ts, pos + 1) && !CommentPeek(ts, pos))
  }

  /** There the child is empty text as written, and an error once empty text is refused. */
  lemma EmptyTextChild(g: Grammar, ts: seq<Token>, pos: nat, fuel: nat)
    requires fuel > 0 && Stalls(ts, pos)
    ensures ParseChild(g, ts, pos, fuel) == if g.nonEmptyText then Failure(UnexpectedToken) else Success(Text([]), pos)
  {
    TextEmptyAtStop(ts, pos);
  }

  /** So a loop over children that reaches such a place without stopping spins until its fuel is gone. */
  lemma StallSpins(g: Grammar, ts: seq<Token>, pos: nat, stop: nat -> bool, fuel: nat, rounds: nat)
    requires !g.nonEmptyText && fuel > 0 && Stalls(ts, pos) && !stop(pos)
    ensures ParseUntil(stop, ChildAt(g, ts, fuel), pos, rounds) == Failure(OutOfFuel)
  {
    EmptyTextChild(g, ts, pos, fuel);
    NoProgressSpins(stop, ChildAt(g, ts, fuel), pos, rounds);
  }

  /** `<>` `>` `</>`: a stray `>` inside a fragment. */
  const StrayGt: seq<Token> := [Punct('<'), Punct('>'), Punct('>'), Punct('<'), Punct('/'), Punct('>')]

  lemma StrayGtSpins(g: Grammar, fuel: nat)
    requires !g.nonEmptyText
    ensures ParseFragment(g, StrayGt, 0, fuel) == Failure(OutOfFuel)
  {
    var ts := StrayGt;
    if fuel > 0 {
      StallSpins(g, ts, 2, FragmentCloserAt(ts), fuel, fuel);
    }
  }

  lemma StrayGtRefused(g: Grammar, fuel: nat)
    requires g.nonEmptyText && fuel > 0
    ensures ParseFragment(g, StrayGt, 0, fuel) == Failure(UnexpectedToken)
  {
    var ts := StrayGt;
    EmptyTextChild(g, ts, 2, fuel);
    assert !FragmentCloser(ts, 2);
  }

  /** `<a></b>`: a closing tag that names another element. */
  const Mismatched: seq<Token> := [Punct('<'), Ident("a"), Punct('>'), Punct('<'), Punct('/'), Ident("b"), Punct('>')]

  /** The opening tag `<a>` of `Mismatched`, read up to its children. */
  lemma MismatchedOpening()
    ensures ParseOpening(Mismatched, 0) == Success((["a"], []), 3)
    ensures !CloseStop(Mismatched, ["a"], 3) && Stalls(Mismatched, 3)
  {
    var ts := Mismatched;
    assert !IsKeyword("a") && !IsKeyword("b");
    assert ParsePath(ts, 1) == Success(["a"], 2);
    assert ParseAttrs(ts, 2) == Success([], 2);
    assert ParseTagStart(ts, 0) == Success((["a"], []), 2);
    assert ParsePath(ts, 5) == Success(["b"], 6);
    assert !NamesMatch(["b"], ["a"]);
  }

  lemma MismatchedSpins(g: Grammar, fuel: nat)
    requires !g.nonEmptyText
    ensures ParseElement(g, Mismatched, 0, fuel) == Failure(OutOfFuel)
  {
    var ts := Mismatched;
    MismatchedOpening();
    if fuel > 0 {
      StallSpins(g, ts, 3, CloseStopAt(ts, ["a"]), fuel, fuel);
    }
  }

  lemma MismatchedRefused(g: Grammar, fuel: nat)
    requires g.nonEmptyText && fuel > 0
    ensures ParseElement(g, Mismatched, 0, fuel) == Failure(UnexpectedToken)
  {
    var ts := Mismatched;
    MismatchedOpening();
    EmptyTextChild(g, ts, 3, fuel);
  }

  // ----- blocks nested as children -----

  /**
   * As written a child is never a block: a block opener is a brace group, so
   * it is read as a mustache, whose expression cannot begin with `#`.
   */
  lemma BlockReadAsMustache(g: Grammar, ts: seq<Token>, pos: nat, fuel: nat)
    requires !g.childBlocks && fuel > 0
    requires IfOpeningPeek(ts, pos) || MatchOpeningPeek(ts, pos)
    ensures ParseChild(g, ts, pos, fuel) == Failure(ExpectedExpression)
  {
    assert !CanBeginExpr(ts[pos].inner, 0);
  }

  /** `{#if c}{#if d}{/if}{/if}` */
  const NestedIf: seq<Token> := [
    Group(Brace, [Punct('#'), Ident("if"), Ident("c")]),
    Group(Brace, [Punct('#'), Ident("if"), Ident("d")]),
    Group(Brace, [Punct('/'), Ident("if")]),
    Group(Brace, [Punct('/'), Ident("if")])]

  /** The two openers of `NestedIf` and what stops the children after them. */
  lemma NestedIfTags()
    ensures ParseIfOpening(NestedIf, 0) == Success([Ident("c")], 1)
    ensures ParseIfOpening(NestedIf, 1) == Success([Ident("d")], 2)
    ensures IfOpeningPeek(NestedIf, 1) && !IfDividerPeek(NestedIf, 1) && !IfClosingPeek(NestedIf, 1)
    ensures IfClosingPeek(NestedIf, 2) && IfClosingPeek(NestedIf, 3)
    ensures ParseIfClosing(NestedIf, 2) == Success((), 3) && ParseIfClosing(NestedIf, 3) == Success((), 4)
  {
    var ts := NestedIf;
    assert WellFormedExpr([Ident("c")]) && WellFormedExpr([Ident("d")]);
    ExprTagRoundTrip(ts, 0, '#', "if", [], [Ident("c")]);
    ExprTagRoundTrip(ts, 1, '#', "if", [], [Ident("d")]);
  }

  /** As written the nested block is refused. */
  lemma NestedIfAsWritten(g: Grammar, fuel: nat)
    requires !g.childBlocks && fuel > 0
    ensures ParseBlock(g, NestedIf, 0, fuel) == Failure(ExpectedExpression)
  {
    var ts := NestedIf;
    NestedIfTags();
    BlockReadAsMustache(g, ts, 1, fuel);
    var stop := Or(IfDividerPeekAt(ts), IfClosingPeekAt(ts));
    assert ParseUntil(stop, ChildAt(g, ts, fuel), 1, fuel) == Failure(ExpectedExpression);
  }

  /** The inner block `{#if d}{/if}` of `NestedIf`. */
  lemma InnerIf(g: Grammar, fuel: nat)
    requires fuel > 0
    ensures ParseIf(g, NestedIf, 1, fuel) == Success(IfBlock([Ident("d")], [], []), 3)
  {
    var ts := NestedIf;
    NestedIfTags();
    assert ParseUntil(Or(IfDividerPeekAt(ts), IfClosingPeekAt(ts)), ChildAt(g, ts, fuel), 2, fuel) == Success([], 2);
    assert ParseDividedUntil(IfClosingPeekAt(ts), IfDividerPeekAt(ts), IfDividerAt(ts), ChildAt(g, ts, fuel), 2, fuel) == Success([], 2);
  }

  /** With blocks as children, `{#if d}{/if}` is the child at index 1 of `NestedIf`. */
  lemma InnerIfChild(g: Grammar, fuel: nat)
    requires g.childBlocks && fuel > 1
    ensures ParseChild(g, NestedIf, 1, fuel) == Success(BlockChild(If(IfBlock([Ident("d")], [], []))), 3)
  {
    NestedIfTags();
    InnerIf(g, fuel - 1);
  }

  /** With blocks as children, the nested block is read inside the outer one. */
  lemma NestedIfCorrected(g: Grammar, fuel: nat)
    requires g.childBlocks && fuel > 1
    ensures ParseBlock(g, NestedIf, 0, fuel)
         == Success(If(IfBlock([Ident("c")], [BlockChild(If(IfBlock([Ident("d")], [], [])))], [])), 4)
  {
    var ts := NestedIf;
    NestedIfTags();
    InnerIfChild(g, fuel);
    var inner := BlockChild(If(IfBlock([Ident("d")], [], [])));
    var stop := Or(IfDividerPeekAt(ts), IfClosingPeekAt(ts));
    assert !stop(1) && stop(3);
    assert ChildAt(g, ts, fuel)(1) == Success(inner, 3);
    UntilStep(stop, ChildAt(g, ts, fuel), 1, fuel);
    assert ParseUntil(stop, ChildAt(g, ts, fuel), 3, fuel - 1) == Success([], 3);
    assert [inner] + [] == [inner];
    assert ParseDividedUntil(IfClosingPeekAt(ts), IfDividerPeekAt(ts), IfDividerAt(ts), ChildAt(g, ts, fuel), 3, fuel) == Success([], 3);
  }

  // ----- elements -----

  /** `<a>` and nothing after it: the error names the element left open. */
  lemma UnclosedNamesElement(g: Grammar, fuel: nat)
    requires fuel > 0
    ensures ParseElement(g, [Punct('<'), Ident("a"), Punct('>')], 0, fuel) == Failure(Unclosed(["a"]))
  {
    var ts := [Punct('<'), Ident("a"), Punct('>')];
    assert !IsKeyword("a");
    assert ParsePath(ts, 1) == Success(["a"], 2);
    assert ParseAttrs(ts, 2) == Success([], 2);
    assert ParseTagStart(ts, 0) == Success((["a"], []), 2);
    assert ParseUntil(CloseStopAt(ts, ["a"]), ChildAt(g, ts, fuel), 3, fuel) == Success([], 3);
  }

  /** `<a::self/>`: a path keyword is a segment after `::`. */
  lemma KeywordSegment()
    ensures ParsePath([Ident("a"), Punct(':'), Punct(':'), Ident("self"), Punct('/')], 0) == Success(["a", "self"], 4)
  {
    var ts := [Ident("a"), Punct(':'), Punct(':'), Ident("self"), Punct('/')];
    assert !IsKeyword("a") && IsPathKeyword(ts, 3);
    assert PathSegments(ts, 4, ["a", "self"]) == Success(["a", "self"], 4);
    assert ["a"] + [ts[3].name] == ["a", "self"];
    assert PathSegments(ts, 1, ["a"]) == Success(["a", "self"], 4);
  }

  /** `<icon::Cactus></icon>`: the names are compared over the shorter path, so this closes the element. */
  const ShorterCloser: seq<Token> := [
    Punct('<'), Ident("icon"), Punct(':'), Punct(':'), Ident("Cactus"), Punct('>'),
    Punct('<'), Punct('/'), Ident("icon"), Punct('>')]

  lemma ShorterCloserTags()
    ensures ParseOpening(ShorterCloser, 0) == Success((["icon", "Cactus"], []), 6)
    ensures ParsePath(ShorterCloser, 8) == Success(["icon"], 9)
    ensures ParseClosing(ShorterCloser, 6) == Success(["icon"], 10)
  {
    var ts := ShorterCloser;
    assert !IsKeyword("icon") && !IsKeyword("Cactus");
    assert PathSegments(ts, 5, ["icon", "Cactus"]) == Success(["icon", "Cactus"], 5);
    assert ["icon"] + ["Cactus"] == ["icon", "Cactus"];
    assert PathSegments(ts, 2, ["icon"]) == Success(["icon", "Cactus"], 5);
    assert ParseAttrs(ts, 5) == Success([], 5);
    assert ParseTagStart(ts, 0) == Success((["icon", "Cactus"], []), 5);
    assert ParsePath(ts, 8) == Success(["icon"], 9);
  }

  lemma ShorterCloserAccepted(g: Grammar, fuel: nat)
    requires fuel > 0
    ensures ParseElement(g, ShorterCloser, 0, fuel) == Success(Closed(["icon", "Cactus"], [], [], ["icon"]), 10)
  {
    var ts := ShorterCloser;
    ShorterCloserTags();
    assert NamesMatch(["icon"], ["icon", "Cactus"]);
    assert CloseStop(ts, ["icon", "Cactus"], 6);
    assert ParseUntil(CloseStopAt(ts, ["icon", "Cactus"]), ChildAt(g, ts, fuel), 6, fuel) == Success([], 6);
  }

  // ----- blocks -----

  /** `{#if c}a{:else}b{/if}` */
  const IfElse: seq<Token> := [
    Group(Brace, [Punct('#'), Ident("if"), Ident("c")]),
    Ident("a"),
    Group(Brace, [Punct(':'), Ident("else")]),
    Ident("b"),
    Group(Brace, [Punct('/'), Ident("if")])]

  lemma IfElseTags()
    ensures ParseIfOpening(IfElse, 0) == Success([Ident("c")], 1)
    ensures ElsePeek(IfElse, 2) && ParseIfDivider(IfElse, 2) == Success(Else, 3)
    ensures IfClosingPeek(IfElse, 4) && ParseIfClosing(IfElse, 4) == Success((), 5)
    ensures forall p :: 0 <= p < 5 ==> (IfDividerPeek(IfElse, p) <==> p == 2) && (IfClosingPeek(IfElse, p) <==> p == 4)
  {
    var ts := IfElse;
    assert WellFormedExpr([Ident("c")]);
    ExprTagRoundTrip(ts, 0, '#', "if", [], [Ident("c")]);
  }

  /** A text child of `IfElse`: one identifier, stopped by the brace group after it. */
  lemma IfElseText(g: Grammar, fuel: nat, p: nat)
    requires fuel > 0 && (p == 1 || p == 3)
    ensures ParseChild(g, IfElse, p, fuel) == Success(Text([IfElse[p]]), p + 1)
  {
    var ts := IfElse;
    assert !TextStop(ts, p) && TextStop(ts, p + 1);
    assert FirstTextStop(ts, p) == Some(p + 1);
    TextSpec(ts, p, Budget(ts, p));
    assert ts[p..p + 1] == [ts[p]];
    assert ParseText(ts, p) == Success([ts[p]], p + 1);
  }

  /** The children of `IfElse` before its divider (`p == 1`), and those after it (`p == 3`). */
  lemma IfElseRun(g: Grammar, fuel: nat, p: nat)
    requires fuel > 1 && (p == 1 || p == 3)
    ensures ParseUntil(Or(IfDividerPeekAt(IfElse), IfClosingPeekAt(IfElse)), ChildAt(g, IfElse, fuel), p, fuel)
         == Success([Text([IfElse[p]])], p + 1)
  {
    var stop := Or(IfDividerPeekAt(IfElse), IfClosingPeekAt(IfElse));
    IfElseTags();
    assert !stop(p) && stop(p + 1);
    IfElseText(g, fuel, p);
    UntilOne(stop, ChildAt(g, IfElse, fuel), p, fuel);
  }

  /** Children, then one `{:else}` divider with its own children, then the closer. */
  lemma IfElseParses(g: Grammar, fuel: nat)
    requires fuel > 1
    ensures ParseBlock(g, IfElse, 0, fuel)
         == Success(If(IfBlock([Ident("c")], [Text([Ident("a")])], [(Else, [Text([Ident("b")])])])), 5)
  {
    var ts := IfElse;
    IfElseTags();
    IfElseRun(g, fuel, 1);
    IfElseRun(g, fuel, 3);
    var dividers := IfDividerPeekAt(ts);
    var closing := IfClosingPeekAt(ts);
    var child := ChildAt(g, ts, fuel);
    assert !closing(2) && closing(4);
    DividedStep(closing, dividers, IfDividerAt(ts), child, 2, fuel);
    assert ParseDividedUntil(closing, dividers, IfDividerAt(ts), child, 4, fuel - 1) == Success([], 4);
    assert IfDividerAt(ts)(2) == Success(Else, 3);
    var group := (Else, [Text([Ident("b")])]);
    assert [group] + [] == [group];
    assert ParseDividedUntil(closing, dividers, IfDividerAt(ts), child, 2, fuel) == Success([group], 4);
  }

  /**
   * Before its first case a match block holds comments only: anything else
   * there fails, with the error the comment parser gives.
   */
  lemma MatchOnlyComments(g: Grammar, ts: seq<Token>, pos: nat, fuel: nat)
    requires fuel > 0 && ParseMatchOpening(ts, pos).Success?
    requires !MatchClosingPeek(ts, pos + 1) && !CasePeek(ts, pos + 1) && !CommentPeek(ts, pos + 1)
    ensures ParseMatch(g, ts, pos, fuel) == Failure(ParseComment(ts, pos + 1).error)
  {
    var stop := Or(MatchClosingPeekAt(ts), CasePeekAt(ts));
    assert !stop(pos + 1);
    assert ParseUntil(stop, CommentAt(ts), pos + 1, fuel) == Failure(ParseComment(ts, pos + 1).error);
  }
}
