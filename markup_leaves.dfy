/**
 * The parts of the markup grammar that do not contain children: text runs,
 * `<!-- ... -->` comments, attributes, and the opening, self-closing and
 * closing tags. Each loop is given twice: as an instance of `ParseUntil`
 * (the specification, with a fuel bound that is proved never to run out)
 * and as a `while` loop proved equal to it.
 */
module MarkupLeaves {
  import opened Tokens
  import opened Collaborators
  import opened Combinators

  /** Fuel enough for a loop whose every round consumes at least one token. */
  function Budget(ts: seq<Token>, pos: nat): (f: nat)
    ensures pos <= |ts| ==> f == |ts| - pos + 1
  {
    if pos <= |ts| then |ts| - pos + 1 else 1
  }

  /** Any single token tree, as a loop item. */
  function TokenAt(ts: seq<Token>): (item: nat -> PResult<Token>)
    ensures forall p: nat :: item(p) == TokenTree(ts, p)
  {
    (p: nat) => TokenTree(ts, p)
  }

  // ----- text -----

  /** Text runs until `<`, `>` or a brace group. */
  predicate TextStop(ts: seq<Token>, p: nat) {
    IsPunct(ts, p, '<') || IsPunct(ts, p, '>') || IsBrace(ts, p)
  }

  function TextStopAt(ts: seq<Token>): (stop: nat -> bool)
    ensures forall p: nat :: stop(p) == TextStop(ts, p)
  {
    (p: nat) => TextStop(ts, p)
  }

  function ParseText(ts: seq<Token>, pos: nat): (r: PResult<seq<Token>>)
  {
    ParseUntil(TextStopAt(ts), TokenAt(ts), pos, Budget(ts, pos))
  }

  /** The first position at or after `p` where text stops, if there is one. */
  function FirstTextStop(ts: seq<Token>, p: nat): (k: Option<nat>)
    requires p <= |ts|
    ensures k.Some? ==> p <= k.value < |ts| && TextStop(ts, k.value)
    ensures forall j :: p <= j < |ts| && (k.None? || j < k.value) ==> !TextStop(ts, j)
    decreases |ts| - p
  {
    if p == |ts| then None
    else if TextStop(ts, p) then Some(p)
    else FirstTextStop(ts, p + 1)
  }

  /**
   * Text is everything up to the first stop; with no stop ahead, reading a
   * token at the end of the input fails.
   */
  lemma {:induction false} TextSpec(ts: seq<Token>, pos: nat, fuel: nat)
    requires pos <= |ts| && fuel > |ts| - pos
    ensures ParseUntil(TextStopAt(ts), TokenAt(ts), pos, fuel)
         == match FirstTextStop(ts, pos)
            case Some(k) => Success(ts[pos..k], k)
            case None => Failure(UnexpectedEnd)
    decreases |ts| - pos
  {
    if pos < |ts| && !TextStop(ts, pos) {
      TextSpec(ts, pos + 1, fuel - 1);
      UntilStep(TextStopAt(ts), TokenAt(ts), pos, fuel);
      assert FirstTextStop(ts, pos) == FirstTextStop(ts, pos + 1);
      var k := FirstTextStop(ts, pos);
      assert TokenAt(ts)(pos) == Success(ts[pos], pos + 1);
      if k.Some? {
        assert [ts[pos]] + ts[pos + 1..k.value] == ts[pos..k.value];
        assert ParseUntil(TextStopAt(ts), TokenAt(ts), pos, fuel) == Success(ts[pos..k.value], k.value);
      } else {
        assert ParseUntil(TextStopAt(ts), TokenAt(ts), pos, fuel) == Failure(UnexpectedEnd);
      }
    } else if pos == |ts| {
      assert ParseUntil(TextStopAt(ts), TokenAt(ts), pos, fuel) == Failure(UnexpectedEnd);
    } else {
      assert ParseUntil(TextStopAt(ts), TokenAt(ts), pos, fuel) == Success([], pos);
      assert ts[pos..pos] == [];
    }
  }

  /** Text consumes nothing when it starts at a stop: the source's loops that read text can spin there. */
  lemma TextEmptyAtStop(ts: seq<Token>, pos: nat)
    requires TextStop(ts, pos)
    ensures ParseText(ts, pos) == Success([], pos)
  {
  }

  /** The text loop as the source writes it: append token trees until a stop. */
  method ParseTextLoop(ts: seq<Token>, pos: nat) returns (r: PResult<seq<Token>>)
    requires pos <= |ts|
    ensures r == ParseText(ts, pos)
  {
    var tokens: seq<Token> := [];
    var p := pos;
    ghost var f := Budget(ts, pos);
    PrependNil(ParseText(ts, pos));
    while !TextStop(ts, p)
      invariant pos <= p <= |ts| && f >= |ts| - p + 1
      invariant ParseText(ts, pos) == Prepend(tokens, ParseUntil(TextStopAt(ts), TokenAt(ts), p, f))
      decreases |ts| - p
    {
      var t := TokenTree(ts, p);
      if t.Failure? {
        return Failure(t.error);
      }
      UntilStep(TextStopAt(ts), TokenAt(ts), p, f);
      PrependAppend(tokens, [t.value], ParseUntil(TextStopAt(ts), TokenAt(ts), t.next, f - 1));
      tokens, p, f := tokens + [t.value], t.next, f - 1;
    }
    assert tokens + [] == tokens;
    return Success(tokens, p);
  }

  // ----- comments -----

  const CommentOpen: seq<char> := ['<', '!', '-', '-']
  const CommentClose: seq<char> := ['-', '-', '>']

  /** `<` `!` `-` `-` ahead; looking costs nothing. */
  predicate CommentPeek(ts: seq<Token>, p: nat) {
    IsPunct(ts, p, '<') && IsPunct(ts, p + 1, '!') && IsPunct(ts, p + 2, '-') && IsPunct(ts, p + 3, '-')
  }

  predicate CommentEnd(ts: seq<Token>, p: nat) {
    IsPunct(ts, p, '-') && IsPunct(ts, p + 1, '-') && IsPunct(ts, p + 2, '>')
  }

  function CommentEndAt(ts: seq<Token>): (stop: nat -> bool)
    ensures forall p: nat :: stop(p) == CommentEnd(ts, p)
  {
    (p: nat) => CommentEnd(ts, p)
  }

  /** The opener, any token trees up to the first `-->`, and the closer. */
  function ParseComment(ts: seq<Token>, pos: nat): (r: PResult<seq<Token>>)
    ensures r.Success? ==> CommentPeek(ts, pos) && pos + 7 <= r.next <= |ts|
    ensures r.Success? ==> r.value == ts[pos + 4..r.next - 3] && CommentEnd(ts, r.next - 3)
    ensures !CommentPeek(ts, pos) ==> r.Failure?
    ensures r.Failure? ==> r.error != OutOfFuel
  {
    match ExpectPuncts(ts, pos, CommentOpen)
    case Failure(e) => Failure(e)
    case Success(_, p) =>
      UntilProgress(CommentEndAt(ts), TokenAt(ts), p, Budget(ts, p), |ts|);
      match ParseUntil(CommentEndAt(ts), TokenAt(ts), p, Budget(ts, p))
      case Failure(e) => Failure(e)
      case Success(contents, q) =>
        CommentContents(ts, p, Budget(ts, p));
        match ExpectPuncts(ts, q, CommentClose)
        case Failure(e) => Failure(e)
        case Success(_, q') => Success(contents, q')
  }

  /** The contents loop reads a contiguous stretch and stops at `-->`. */
  lemma {:induction false} CommentContents(ts: seq<Token>, p: nat, fuel: nat)
    requires ParseUntil(CommentEndAt(ts), TokenAt(ts), p, fuel).Success?
    ensures var r := ParseUntil(CommentEndAt(ts), TokenAt(ts), p, fuel);
      p <= r.next <= |ts| && r.value == ts[p..r.next] && CommentEnd(ts, r.next)
    decreases fuel
  {
    if !CommentEnd(ts, p) {
      CommentContents(ts, p + 1, fuel - 1);
      var r := ParseUntil(CommentEndAt(ts), TokenAt(ts), p + 1, fuel - 1);
      assert [ts[p]] + ts[p + 1..r.next] == ts[p..r.next];
    }
  }

  /** The comment loop as the source writes it. */
  method ParseCommentLoop(ts: seq<Token>, pos: nat) returns (r: PResult<seq<Token>>)
    ensures r == ParseComment(ts, pos)
  {
    var o := ExpectPuncts(ts, pos, CommentOpen);
    if o.Failure? {
      return Failure(o.error);
    }
    var start := o.next;
    var contents: seq<Token> := [];
    var p := start;
    ghost var f := Budget(ts, start);
    PrependNil(ParseUntil(CommentEndAt(ts), TokenAt(ts), start, f));
    while !CommentEnd(ts, p)
      invariant start <= p <= |ts| && f >= |ts| - p + 1
      invariant ParseUntil(CommentEndAt(ts), TokenAt(ts), start, Budget(ts, start))
             == Prepend(contents, ParseUntil(CommentEndAt(ts), TokenAt(ts), p, f))
      decreases |ts| - p
    {
      var t := TokenTree(ts, p);
      if t.Failure? {
        return Failure(t.error);
      }
      UntilStep(CommentEndAt(ts), TokenAt(ts), p, f);
      PrependAppend(contents, [t.value], ParseUntil(CommentEndAt(ts), TokenAt(ts), t.next, f - 1));
      contents, p, f := contents + [t.value], t.next, f - 1;
    }
    assert contents + [] == contents;
    var c := ExpectPuncts(ts, p, CommentClose);
    assert c.Success?;
    return Success(contents, c.next);
  }

  function Puncts(cs: seq<char>): (s: seq<Token>)
    ensures |s| == |cs| && forall k :: 0 <= k < |cs| ==> s[k] == Punct(cs[k])
  {
    if cs == [] then [] else [Punct(cs[0])] + Puncts(cs[1..])
  }

  function PrintComment(contents: seq<Token>): seq<Token> {
    Puncts(CommentOpen) + contents + Puncts(CommentClose)
  }

  /** Comment contents that do not themselves hold a `-->`. */
  predicate CommentSafe(contents: seq<Token>) {
    forall k :: 0 <= k < |contents| ==> !CommentEnd(contents + Puncts(CommentClose), k)
  }

  /** A printed comment whose contents hold no `-->` is read back with the same contents. */
  lemma CommentRoundTrip(contents: seq<Token>, ts: seq<Token>, pos: nat)
    requires CommentSafe(contents)
    requires pos + |contents| + 7 <= |ts| && ts[pos..pos + |contents| + 7] == PrintComment(contents)
    ensures ParseComment(ts, pos) == Success(contents, pos + |contents| + 7)
  {
    var p := pos + 4;
    PrintedCommentLayout(contents, ts, pos);
    CommentRun(contents, ts, p, 0, Budget(ts, p));
    assert contents[0..] == contents;
    CommentStep(ts, pos, contents, p + |contents|);
  }

  /** Where a printed comment's opener, contents and closer sit in the input. */
  lemma PrintedCommentLayout(contents: seq<Token>, ts: seq<Token>, pos: nat)
    requires pos + |contents| + 7 <= |ts| && ts[pos..pos + |contents| + 7] == PrintComment(contents)
    ensures CommentPeek(ts, pos) && CommentEnd(ts, pos + 4 + |contents|)
    ensures forall k :: 0 <= k < |contents| + 3 ==> ts[pos + 4 + k] == (contents + Puncts(CommentClose))[k]
  {
    var s := PrintComment(contents);
    forall k | 0 <= k < 4
      ensures ts[pos + k] == Punct(CommentOpen[k])
    {
      assert ts[pos + k] == s[k];
    }
    var p := pos + 4;
    var body := contents + Puncts(CommentClose);
    forall k | 0 <= k < |body|
      ensures ts[p + k] == body[k]
    {
      assert ts[p + k] == s[4 + k];
    }
    var q := p + |contents|;
    assert ts[q] == body[|contents|] && ts[q + 1] == body[|contents| + 1] && ts[q + 2] == body[|contents| + 2];
  }

  /** The opener, a contents loop that ended at `-->`, and the closer. */
  lemma CommentStep(ts: seq<Token>, pos: nat, contents: seq<Token>, q: nat)
    requires CommentPeek(ts, pos) && CommentEnd(ts, q)
    requires ParseUntil(CommentEndAt(ts), TokenAt(ts), pos + 4, Budget(ts, pos + 4)) == Success(contents, q)
    ensures ParseComment(ts, pos) == Success(contents, q + 3)
  {
  }

  lemma {:induction false} CommentRun(contents: seq<Token>, ts: seq<Token>, p: nat, i: nat, fuel: nat)
    requires CommentSafe(contents) && i <= |contents|
    requires p + |contents| + 3 <= |ts|
    requires forall k :: 0 <= k < |contents| + 3 ==> ts[p + k] == (contents + Puncts(CommentClose))[k]
    requires fuel > |contents| - i
    ensures ParseUntil(CommentEndAt(ts), TokenAt(ts), p + i, fuel) == Success(contents[i..], p + |contents|)
    decreases |contents| - i
  {
    var body := contents + Puncts(CommentClose);
    if i == |contents| {
      assert ts[p + i] == body[i] && ts[p + i + 1] == body[i + 1] && ts[p + i + 2] == body[i + 2];
    } else {
      assert !CommentEnd(body, i);
      assert ts[p + i] == body[i];
      if p + i + 2 < |ts| {
        assert ts[p + i + 1] == body[i + 1] && ts[p + i + 2] == body[i + 2];
      }
      assert !CommentEnd(ts, p + i);
      CommentRun(contents, ts, p, i + 1, fuel - 1);
      assert [contents[i]] + contents[i + 1..] == contents[i..];
    }
  }

  // ----- attributes -----

  datatype AttributeValue = LitStr(lit: string) | ExprValue(expr: seq<Token>)

  datatype Attribute = Spread(expr: seq<Token>) | Named(key: string, value: Option<AttributeValue>)

  /** A brace group holding exactly one expression. */
  function ParseBracedExpr(ts: seq<Token>, pos: nat): (r: PResult<seq<Token>>)
    ensures r.Success? ==> IsBrace(ts, pos) && r.next == pos + 1 && r.value == ts[pos].inner
    ensures !IsBrace(ts, pos) ==> r == Failure(ExpectedBraces)
  {
    match Braced(ts, pos)
    case Failure(e) => Failure(e)
    case Success(inner, p) =>
      match Finished(inner, ParseExpr(inner, 0))
      case Failure(e) => Failure(e)
      case Success(x, _) => Success(x, p)
  }

  /** A string literal or a braced expression; nothing else. */
  function ParseAttributeValue(ts: seq<Token>, pos: nat): (r: PResult<AttributeValue>)
    ensures r.Success? ==> r.next == pos + 1
    ensures r.Success? ==> (r.value.LitStr? <==> IsStrLit(ts, pos)) && (r.value.ExprValue? ==> IsBrace(ts, pos))
    ensures !IsStrLit(ts, pos) && !IsBrace(ts, pos) ==> r == Failure(ExpectedAttributeValue)
  {
    if IsStrLit(ts, pos) then Success(LitStr(ts[pos].contents), pos + 1)
    else if IsBrace(ts, pos) then
      match ParseBracedExpr(ts, pos)
      case Failure(e) => Failure(e)
      case Success(x, p) => Success(ExprValue(x), p)
    else Failure(ExpectedAttributeValue)
  }

  /** `{..expr}` */
  function ParseSpread(ts: seq<Token>, pos: nat): (r: PResult<Attribute>)
    ensures r.Success? ==> IsBrace(ts, pos) && r.next == pos + 1 && r.value.Spread?
    ensures r.Success? ==> ts[pos].inner == [Punct('.'), Punct('.')] + r.value.expr
  {
    match Braced(ts, pos)
    case Failure(e) => Failure(e)
    case Success(inner, p) =>
      match ExpectPuncts(inner, 0, ['.', '.'])
      case Failure(e) => Failure(e)
      case Success(_, q) =>
        match Finished(inner, ParseExpr(inner, q))
        case Failure(e) => Failure(e)
        case Success(x, _) =>
          assert inner == [Punct('.'), Punct('.')] + x;
          Success(Spread(x), p)
  }

  /** A key, and an initializer exactly when `=` follows it. */
  function ParseNamed(ts: seq<Token>, pos: nat): (r: PResult<Attribute>)
    ensures r.Success? ==> IsIdent(ts, pos) && r.value.Named? && r.value.key == ts[pos].name
    ensures r.Success? ==> (r.value.value.Some? <==> IsPunct(ts, pos + 1, '='))
    ensures r.Success? ==> r.next == pos + (if r.value.value.Some? then 3 else 1)
    ensures !IsIdent(ts, pos) ==> r == Failure(ExpectedIdent)
  {
    match ExpectIdent(ts, pos)
    case Failure(e) => Failure(e)
    case Success(key, p) =>
      if IsPunct(ts, p, '=') then
        match ParseAttributeValue(ts, p + 1)
        case Failure(e) => Failure(e)
        case Success(v, q) => Success(Named(key, Some(v)), q)
      else Success(Named(key, None), p)
  }

  /** A brace group is a spread attribute, an identifier a named one. */
  function ParseAttribute(ts: seq<Token>, pos: nat): (r: PResult<Attribute>)
    ensures r.Success? ==> pos < r.next <= |ts|
    ensures r.Success? ==> (r.value.Spread? <==> IsBrace(ts, pos))
    ensures !IsBrace(ts, pos) && !IsIdent(ts, pos) ==> r == Failure(ExpectedAttribute)
    ensures r.Failure? ==> r.error != OutOfFuel
  {
    if IsBrace(ts, pos) then ParseSpread(ts, pos)
    else if IsIdent(ts, pos) then ParseNamed(ts, pos)
    else Failure(ExpectedAttribute)
  }

  function AttributeAt(ts: seq<Token>): (item: nat -> PResult<Attribute>)
    ensures forall p: nat :: item(p) == ParseAttribute(ts, p)
  {
    (p: nat) => ParseAttribute(ts, p)
  }

  /** Attributes run until `>` or `/`. */
  predicate AttrsStop(ts: seq<Token>, p: nat) {
    IsPunct(ts, p, '>') || IsPunct(ts, p, '/')
  }

  function AttrsStopAt(ts: seq<Token>): (stop: nat -> bool)
    ensures forall p: nat :: stop(p) == AttrsStop(ts, p)
  {
    (p: nat) => AttrsStop(ts, p)
  }

  function ParseAttrs(ts: seq<Token>, pos: nat): (r: PResult<seq<Attribute>>)
  {
    ParseUntil(AttrsStopAt(ts), AttributeAt(ts), pos, Budget(ts, pos))
  }

  /** The attribute loop never spins: it ends at `>` or `/`, or with an attribute's own error. */
  lemma AttrsEnd(ts: seq<Token>, pos: nat)
    requires pos <= |ts|
    ensures var r := ParseAttrs(ts, pos);
      (r.Success? ==> AttrsStop(ts, r.next) && pos <= r.next) && (r.Failure? ==> r.error != OutOfFuel)
  {
    UntilProgress(AttrsStopAt(ts), AttributeAt(ts), pos, Budget(ts, pos), |ts|);
    if ParseAttrs(ts, pos).Success? {
      UntilSound(AttrsStopAt(ts), AttributeAt(ts), pos, Budget(ts, pos));
    }
  }

  /** The attribute loop as the source writes it. */
  method ParseAttrsLoop(ts: seq<Token>, pos: nat) returns (r: PResult<seq<Attribute>>)
    requires pos <= |ts|
    ensures r == ParseAttrs(ts, pos)
  {
    var attrs: seq<Attribute> := [];
    var p := pos;
    ghost var f := Budget(ts, pos);
    PrependNil(ParseAttrs(ts, pos));
    while !AttrsStop(ts, p)
      invariant pos <= p <= |ts| && f >= |ts| - p + 1
      invariant ParseAttrs(ts, pos) == Prepend(attrs, ParseUntil(AttrsStopAt(ts), AttributeAt(ts), p, f))
      decreases |ts| - p
    {
      var a := ParseAttribute(ts, p);
      if a.Failure? {
        UntilHalts(AttrsStopAt(ts), AttributeAt(ts), p, f);
        return Failure(a.error);
      }
      UntilStep(AttrsStopAt(ts), AttributeAt(ts), p, f);
      PrependAppend(attrs, [a.value], ParseUntil(AttrsStopAt(ts), AttributeAt(ts), a.next, f - 1));
      attrs, p, f := attrs + [a.value], a.next, f - 1;
    }
    UntilHalts(AttrsStopAt(ts), AttributeAt(ts), p, f);
    assert attrs + [] == attrs;
    return Success(attrs, p);
  }

  // ----- tags -----

  /** `<`, the name and the attributes, up to (not including) `>` or `/`. */
  function ParseTagStart(ts: seq<Token>, pos: nat): (r: PResult<(seq<string>, seq<Attribute>)>)
    ensures r.Success? ==> IsPunct(ts, pos, '<') && IsIdent(ts, pos + 1) && |r.value.0| >= 1
    ensures r.Success? ==> pos + 2 <= r.next <= |ts| && AttrsStop(ts, r.next)
    ensures r.Failure? ==> r.error != OutOfFuel
  {
    match ExpectPunct(ts, pos, '<')
    case Failure(e) => Failure(e)
    case Success(_, p) =>
      match ParsePath(ts, p)
      case Failure(e) => Failure(e)
      case Success(name, q) =>
        AttrsEnd(ts, q);
        match ParseAttrs(ts, q)
        case Failure(e) => Failure(e)
        case Success(attrs, q') => Success((name, attrs), q')
  }

  /** `<name attrs>` */
  function ParseOpening(ts: seq<Token>, pos: nat): (r: PResult<(seq<string>, seq<Attribute>)>)
    ensures r.Success? <==> ParseTagStart(ts, pos).Success? && IsPunct(ts, ParseTagStart(ts, pos).next, '>')
    ensures r.Success? ==> r.value == ParseTagStart(ts, pos).value && r.next == ParseTagStart(ts, pos).next + 1
    ensures r.Failure? ==> r.error != OutOfFuel
  {
    match ParseTagStart(ts, pos)
    case Failure(e) => Failure(e)
    case Success(tag, p) =>
      match ExpectPunct(ts, p, '>')
      case Failure(e) => Failure(e)
      case Success(_, q) => Success(tag, q)
  }

  /** `<name attrs />` */
  function ParseSelfClosing(ts: seq<Token>, pos: nat): (r: PResult<(seq<string>, seq<Attribute>)>)
    ensures r.Success? <==> ParseTagStart(ts, pos).Success? && IsPunct(ts, ParseTagStart(ts, pos).next, '/')
                            && IsPunct(ts, ParseTagStart(ts, pos).next + 1, '>')
    ensures r.Success? ==> r.value == ParseTagStart(ts, pos).value && r.next == ParseTagStart(ts, pos).next + 2
    ensures r.Failure? ==> r.error != OutOfFuel
  {
    match ParseTagStart(ts, pos)
    case Failure(e) => Failure(e)
    case Success(tag, p) =>
      match ExpectPuncts(ts, p, ['/', '>'])
      case Failure(e) => Failure(e)
      case Success(_, q) => Success(tag, q)
  }

  /** `</name>` */
  function ParseClosing(ts: seq<Token>, pos: nat): (r: PResult<seq<string>>)
    ensures r.Success? ==> IsPunct(ts, pos, '<') && IsPunct(ts, pos + 1, '/') && IsIdent(ts, pos + 2)
    ensures r.Success? ==> r.next > pos + 2 && ParsePath(ts, pos + 2) == Success(r.value, r.next - 1) && IsPunct(ts, r.next - 1, '>')
    ensures r.Failure? ==> r.error != OutOfFuel
  {
    match ExpectPuncts(ts, pos, ['<', '/'])
    case Failure(e) => Failure(e)
    case Success(_, p) =>
      match ParsePath(ts, p)
      case Failure(e) => Failure(e)
      case Success(name, q) =>
        match ExpectPunct(ts, q, '>')
        case Failure(e) => Failure(e)
        case Success(_, q') => Success(name, q')
  }

  /** `<` `/` and an identifier: a closing tag, whose name decides whether it is the one awaited. */
  predicate CloserCandidate(ts: seq<Token>, p: nat) {
    IsPunct(ts, p, '<') && IsPunct(ts, p + 1, '/') && IsIdent(ts, p + 2)
  }

  /** The names agree segment by segment over the shorter of the two. */
  predicate NamesMatch(a: seq<string>, b: seq<string>)
    decreases |a|
  {
    a == [] || b == [] || (a[0] == b[0] && NamesMatch(a[1..], b[1..]))
  }

  /** Comparing over the shorter name means one name is a prefix of the other. */
  lemma {:induction false} NamesMatchPrefix(a: seq<string>, b: seq<string>)
    ensures NamesMatch(a, b) <==> (a <= b || b <= a)
    decreases |a|
  {
    if a != [] && b != [] {
      NamesMatchPrefix(a[1..], b[1..]);
      assert a == [a[0]] + a[1..] && b == [b[0]] + b[1..];
    }
  }
}
