/**
 * Interpolation: a brace group holding an expression and, after a `:`, an
 * optional formatting specification, as in `{count:'0'>3?}`.
 */
module Interpolation {
  import opened Tokens
  import opened Collaborators
  import opened Formatting
  import opened FormattingLaws

  datatype Mustache = Mustache(expr: seq<Token>, formatting: Option<Format>)

  /** `:` and then a formatting specification; an error of the specification is passed on unchanged. */
  function ParseFormattingGroup(ts: seq<Token>, pos: nat): (r: PResult<Format>)
    ensures r.Success? ==> IsPunct(ts, pos, ':') && pos + 1 <= r.next
    ensures !IsPunct(ts, pos, ':') ==> r == Failure(ExpectedPunct(':'))
    ensures IsPunct(ts, pos, ':') && r.Failure? ==> r == ParseFormat(ts, pos + 1)
  {
    if IsPunct(ts, pos, ':') then ParseFormat(ts, pos + 1) else Failure(ExpectedPunct(':'))
  }

  /** The contents of the group: the expression first, then the formatting when a `:` follows it. */
  function ParseMustacheInner(inner: seq<Token>): (r: PResult<Mustache>)
    ensures r.Success? ==> 0 < |r.value.expr| <= |inner| && r.value.expr == inner[..|r.value.expr|]
    ensures r.Success? ==> (r.value.formatting.Some? <==> IsPunct(inner, |r.value.expr|, ':'))
    ensures r.Success? ==> r.next == |inner|
    ensures !CanBeginExpr(inner, 0) ==> r == Failure(ExpectedExpression)
    ensures r.Failure? ==> r.error != OutOfFuel
  {
    match ParseExpr(inner, 0)
    case Failure(e) => Failure(e)
    case Success(expr, p) =>
      if IsPunct(inner, p, ':') then
        match ParseFormattingGroup(inner, p)
        case Failure(e) => Failure(e)
        case Success(f, q) => Finished(inner, Success(Mustache(expr, Some(f)), q))
      else Finished(inner, Success(Mustache(expr, None), p))
  }

  /** A mustache is exactly one brace group, whose contents must be used up. */
  function ParseMustache(ts: seq<Token>, pos: nat): (r: PResult<Mustache>)
    ensures !IsBrace(ts, pos) ==> r == Failure(ExpectedBraces)
    ensures r.Success? ==> IsBrace(ts, pos) && r.next == pos + 1
    ensures r.Success? ==> 0 < |r.value.expr| <= |ts[pos].inner| && r.value.expr == ts[pos].inner[..|r.value.expr|]
    ensures r.Success? ==> (r.value.formatting.Some? <==> IsPunct(ts[pos].inner, |r.value.expr|, ':'))
    ensures r.Failure? ==> r.error != OutOfFuel
  {
    match Braced(ts, pos)
    case Failure(e) => Failure(e)
    case Success(inner, p) =>
      match ParseMustacheInner(inner)
      case Failure(e) => Failure(e)
      case Success(m, _) => Success(m, p)
  }

  // ----- printing and reading back -----

  function PrintMustache(m: Mustache): Token {
    Group(Brace, m.expr + (if m.formatting.Some? then [Punct(':')] + PrintFormat(m.formatting.value) else []))
  }

  predicate WellFormedMustache(m: Mustache) {
    WellFormedExpr(m.expr) && (m.formatting.Some? ==> WellFormed(m.formatting.value))
  }

  /** The expression is followed by a lone `:`: no printed specification begins with another `:`. */
  lemma LoneColon(f: Format, e: seq<Token>, inner: seq<Token>)
    requires inner == e + ([Punct(':')] + PrintFormat(f))
    ensures IsPunct(inner, |e|, ':') && !IsPunct(inner, |e| + 1, ':')
    ensures inner[|e| + 1..] == PrintFormat(f)
  {
    FormatPunctsOnly(f);
    assert inner[|e|] == Punct(':');
    if |e| + 1 < |inner| {
      assert inner[|e| + 1] == PrintFormat(f)[0];
    }
    assert inner[|e| + 1..] == PrintFormat(f);
  }

  /** A well-formed mustache, printed as a brace group, is read back exactly, one token long. */
  lemma MustacheRoundTrip(m: Mustache, ts: seq<Token>, pos: nat)
    requires WellFormedMustache(m)
    requires pos < |ts| && ts[pos] == PrintMustache(m)
    ensures ParseMustache(ts, pos) == Success(m, pos + 1)
  {
    var inner := ts[pos].inner;
    assert inner[..|m.expr|] == m.expr;
    if m.formatting.Some? {
      var f := m.formatting.value;
      LoneColon(f, m.expr, inner);
      ParseExprEmbedded(inner, 0, m.expr);
      FormatRoundTrip(f, inner, |m.expr| + 1);
      InnerWithFormat(inner, m.expr, f);
    } else {
      assert inner == m.expr;
      ParseExprEmbedded(inner, 0, m.expr);
    }
  }

  lemma InnerWithFormat(inner: seq<Token>, e: seq<Token>, f: Format)
    requires ParseExpr(inner, 0) == Success(e, |e|)
    requires IsPunct(inner, |e|, ':')
    requires ParseFormat(inner, |e| + 1) == Success(f, |inner|)
    ensures ParseMustacheInner(inner) == Success(Mustache(e, Some(f)), |inner|)
  {
    assert ParseFormattingGroup(inner, |e|) == Success(f, |inner|);
  }

  /** Whatever is read back carries a specification the round trip covers. */
  lemma MustacheFormatWellFormed(ts: seq<Token>, pos: nat)
    requires ParseMustache(ts, pos).Success? && ParseMustache(ts, pos).value.formatting.Some?
    ensures WellFormed(ParseMustache(ts, pos).value.formatting.value)
  {
    var inner := ts[pos].inner;
    var e := ParseExpr(inner, 0);
    ParseWellFormed(inner, e.next + 1);
  }

  /** `{apple:'2'>?}`. */
  lemma MustacheApple()
    ensures ParseMustache([Group(Brace, [Ident("apple"), Punct(':'), CharLit('2'), Punct('>'), Punct('?')])], 0)
         == Success(Mustache([Ident("apple")], Some(Plain.(align := Some(Align(Some('2'), Right)), ftype := Debug))), 1)
  {
    var m := Mustache([Ident("apple")], Some(Plain.(align := Some(Align(Some('2'), Right)), ftype := Debug)));
    assert PrintMustache(m) == Group(Brace, [Ident("apple"), Punct(':'), CharLit('2'), Punct('>'), Punct('?')]);
    MustacheRoundTrip(m, [PrintMustache(m)], 0);
  }
}
