/**
 * What the formatting parser promises, stated against a printer: every
 * well-formed specification is read back exactly from its tokens, and every
 * specification the parser produces is well-formed. The source's own test
 * cases follow as lemmas about concrete token sequences.
 */
module FormattingLaws {
  import opened Tokens
  import opened Formatting

  // ----- printing -----

  function PrintAlign(a: Option<Align>): seq<Token> {
    match a
    case None => []
    case Some(Align(fill, d)) => (if fill.Some? then [CharLit(fill.value)] else []) + [Punct(DirectionChar(d))]
  }

  function PrintSign(s: Option<Sign>): seq<Token> {
    match s
    case None => []
    case Some(Positive) => [Punct('+')]
    case Some(Negative) => [Punct('-')]
  }

  function PrintPretty(pretty: bool): seq<Token> {
    if pretty then [Punct('#')] else []
  }

  function PrintPrecision(p: Precision): seq<Token> {
    match p
    case Star => [Punct('*')]
    case Count(Integer(d)) => [IntLit(d)]
    case Count(Parameter(n)) => [Ident(n), Punct('$')]
  }

  /** The width as one integer literal, with the zero flag written in front of it. */
  function PrintNumbers(zero: bool, width: Option<string>, precision: Option<Precision>): seq<Token> {
    if width.None? then []
    else
      [IntLit((if zero then "0" else "") + width.value)] +
      (if precision.Some? then [Punct('.')] + PrintPrecision(precision.value) else [])
  }

  function PrintType(t: FormatType): seq<Token> {
    match t
    case Display => []
    case Debug => [Punct('?')]
    case DebugLowerHex => [Ident("x"), Punct('?')]
    case DebugUpperHex => [Ident("X"), Punct('?')]
    case Other(n) => [Ident(n)]
  }

  /** The tokens from the numeric part on, from the pretty flag on, and from the sign on. */
  function PrintFromNumbers(f: Format): seq<Token> {
    PrintNumbers(f.zero, f.width, f.precision) + PrintType(f.ftype)
  }

  function PrintFromPretty(f: Format): seq<Token> {
    PrintPretty(f.pretty) + PrintFromNumbers(f)
  }

  function PrintFromSign(f: Format): seq<Token> {
    PrintSign(f.sign) + PrintFromPretty(f)
  }

  function PrintFormat(f: Format): seq<Token> {
    PrintAlign(f.align) + PrintFromSign(f)
  }

  /**
   * The specifications the grammar can express: a zero flag or a precision
   * needs a width, a zero-flagged width starts with a digit other than `0`, a
   * longer width does not start with `0`, and names are not keywords.
   */
  predicate WidthOk(zero: bool, w: string) {
    if zero then |w| >= 1 && '1' <= w[0] <= '9' else (|w| > 1 ==> w[0] != '0')
  }

  predicate WellFormed(f: Format) {
    && ((f.zero || f.precision.Some?) ==> f.width.Some?)
    && (f.width.Some? ==> WidthOk(f.zero, f.width.value))
    && (f.precision.Some? && f.precision.value.Count? && f.precision.value.count.Parameter? ==>
          !IsKeyword(f.precision.value.count.name))
    && (f.ftype.Other? ==> !IsKeyword(f.ftype.ident))
  }

  // ----- punctuation that printed tokens use -----

  predicate PunctsIn(s: seq<Token>, cs: set<char>) {
    forall k :: 0 <= k < |s| && s[k].Punct? ==> s[k].ch in cs
  }

  /** Punctuation that can follow the alignment. */
  const AfterAlignPuncts: set<char> := {'+', '-', '#', '.', '*', '$', '?'}

  lemma PunctsInAppend(a: seq<Token>, b: seq<Token>, cs: set<char>)
    requires PunctsIn(a, cs) && PunctsIn(b, cs)
    ensures PunctsIn(a + b, cs)
  {
    forall k | 0 <= k < |a + b| && (a + b)[k].Punct? ensures (a + b)[k].ch in cs {
      if k >= |a| {
        assert (a + b)[k] == b[k - |a|];
      }
    }
  }

  lemma FromSignPunctsOnly(f: Format)
    ensures PunctsIn(PrintFromSign(f), AfterAlignPuncts)
  {
    if f.width.Some? && f.precision.Some? {
      PunctsInAppend([Punct('.')], PrintPrecision(f.precision.value), AfterAlignPuncts);
      PunctsInAppend([IntLit((if f.zero then "0" else "") + f.width.value)],
                     [Punct('.')] + PrintPrecision(f.precision.value), AfterAlignPuncts);
    }
    PunctsInAppend(PrintNumbers(f.zero, f.width, f.precision), PrintType(f.ftype), AfterAlignPuncts);
    PunctsInAppend(PrintPretty(f.pretty), PrintFromNumbers(f), AfterAlignPuncts);
    PunctsInAppend(PrintSign(f.sign), PrintFromPretty(f), AfterAlignPuncts);
  }

  /** No printed specification contains a `:`, so it never ends the expression before it early. */
  lemma FormatPunctsOnly(f: Format)
    ensures PunctsIn(PrintFormat(f), AfterAlignPuncts + {'<', '^', '>'})
  {
    FromSignPunctsOnly(f);
    var cs := AfterAlignPuncts + {'<', '^', '>'};
    assert PunctsIn(PrintFromSign(f), cs);
    assert PunctsIn(PrintAlign(f.align), cs);
    PunctsInAppend(PrintAlign(f.align), PrintFromSign(f), cs);
  }

  // ----- reading back, part by part -----

  lemma TypeRoundTrip(t: FormatType, ts: seq<Token>, p: nat)
    requires t.Other? ==> !IsKeyword(t.ident)
    requires p <= |ts| && ts[p..] == PrintType(t)
    ensures ParseFormatType(ts, p) == Success(t, |ts|)
  {
    assert |ts| == p + |PrintType(t)|;
    if |PrintType(t)| > 0 {
      assert ts[p] == ts[p..][0];
    }
    if |PrintType(t)| > 1 {
      assert ts[p + 1] == ts[p..][1];
    }
  }

  lemma PrecisionRoundTrip(q: Precision, ts: seq<Token>, p: nat, rest: seq<Token>)
    requires q.Count? && q.count.Parameter? ==> !IsKeyword(q.count.name)
    requires p <= |ts| && ts[p..] == PrintPrecision(q) + rest
    ensures ParsePrecision(ts, p) == Success(q, p + |PrintPrecision(q)|)
  {
    assert ts[p] == ts[p..][0];
    if q.Count? && q.count.Parameter? {
      assert ts[p + 1] == ts[p..][1];
    }
  }

  /** The literal a width prints as is split back into the same flag and width. */
  lemma SplitZeroRoundTrip(zero: bool, w: string, precision: Option<Precision>, next: nat)
    requires WidthOk(zero, w)
    ensures SplitZero((if zero then "0" else "") + w, precision, next) == Success(Numbers(zero, Some(w), precision), next)
  {
    var s := (if zero then "0" else "") + w;
    if zero {
      assert s[1..] == w && s[0] == '0' && s[1] == w[0];
    } else {
      assert s == w;
    }
  }

  /** Splitting a sequence known to be `a + b` after its first `|a|` elements. */
  lemma Drop(ts: seq<Token>, p: nat, a: seq<Token>, b: seq<Token>)
    requires p <= |ts| && ts[p..] == a + b
    ensures p + |a| <= |ts| && ts[p + |a|..] == b
  {
    assert ts[p + |a|..] == ts[p..][|a|..];
    assert (a + b)[|a|..] == b;
  }

  /** At an integer literal the numeric part is read by the integer rule, from that token on. */
  lemma AtIntLit(ts: seq<Token>, p: nat)
    requires p < |ts| && ts[p].IntLit?
    ensures IsIntAhead(ts, p) && LitAt(ts, p) == p && LitText(ts, p) == ts[p].text
    ensures ParseNumbers(ts, p) == ParseIntNumbers(ts, p)
  {
  }

  /** An integer literal not followed by `.` is the whole numeric part. */
  lemma IntNumbersPlain(zero: bool, w: string, ts: seq<Token>, p: nat)
    requires WidthOk(zero, w)
    requires p < |ts| && ts[p] == IntLit((if zero then "0" else "") + w) && !IsPunct(ts, p + 1, '.')
    ensures ParseNumbers(ts, p) == Success(Numbers(zero, Some(w), None), p + 1)
  {
    AtIntLit(ts, p);
    SplitZeroRoundTrip(zero, w, None, p + 1);
  }

  /** An integer literal, `.` and a precision. */
  lemma IntNumbersPrecise(zero: bool, w: string, q: Precision, ts: seq<Token>, p: nat, p': nat)
    requires WidthOk(zero, w)
    requires p + 1 < |ts| && ts[p] == IntLit((if zero then "0" else "") + w) && ts[p + 1] == Punct('.')
    requires ParsePrecision(ts, p + 2) == Success(q, p')
    ensures ParseNumbers(ts, p) == Success(Numbers(zero, Some(w), Some(q)), p')
  {
    AtIntLit(ts, p);
    SplitZeroRoundTrip(zero, w, Some(q), p');
    assert ParseIntNumbers(ts, p) == SplitZero(ts[p].text, Some(q), p');
  }

  /** A printed width, with its precision, is read back as the same numeric part. */
  lemma IntNumbersRoundTrip(zero: bool, w: string, precision: Option<Precision>, ts: seq<Token>, p: nat, rest: seq<Token>)
    requires WidthOk(zero, w)
    requires precision.Some? && precision.value.Count? && precision.value.count.Parameter? ==>
      !IsKeyword(precision.value.count.name)
    requires p <= |ts| && ts[p..] == PrintNumbers(zero, Some(w), precision) + rest
    requires precision.None? ==> rest == [] || rest[0] != Punct('.')
    ensures IsIntLit(ts, p)
    ensures ParseNumbers(ts, p) == Success(Numbers(zero, Some(w), precision), p + |PrintNumbers(zero, Some(w), precision)|)
  {
    var lit := IntLit((if zero then "0" else "") + w);
    assert ts[p] == lit by {
      assert ts[p] == ts[p..][0];
    }
    if precision.Some? {
      var q := precision.value;
      assert ts[p..] == [lit, Punct('.')] + (PrintPrecision(q) + rest);
      PreciseRoundTrip(zero, w, q, ts, p, rest);
    } else {
      assert !IsPunct(ts, p + 1, '.') by {
        assert ts[p..] == [lit] + rest;
        Drop(ts, p, [lit], rest);
        if p + 1 < |ts| {
          assert ts[p + 1] == ts[p + 1..][0];
        }
      }
      IntNumbersPlain(zero, w, ts, p);
    }
  }

  lemma PreciseRoundTrip(zero: bool, w: string, q: Precision, ts: seq<Token>, p: nat, rest: seq<Token>)
    requires WidthOk(zero, w)
    requires q.Count? && q.count.Parameter? ==> !IsKeyword(q.count.name)
    requires p <= |ts| && ts[p..] == [IntLit((if zero then "0" else "") + w), Punct('.')] + (PrintPrecision(q) + rest)
    ensures ParseNumbers(ts, p) == Success(Numbers(zero, Some(w), Some(q)), p + 2 + |PrintPrecision(q)|)
  {
    Drop(ts, p, [IntLit((if zero then "0" else "") + w), Punct('.')], PrintPrecision(q) + rest);
    assert ts[p] == ts[p..][0] && ts[p + 1] == ts[p..][1];
    PrecisionRoundTrip(q, ts, p + 2, rest);
    IntNumbersPrecise(zero, w, q, ts, p, p + 2 + |PrintPrecision(q)|);
  }

  /** What a printed type begins with: never a literal, a `.`, a `#` or a sign. */
  predicate StartsType(s: seq<Token>) {
    s == [] || s[0] == Punct('?') || s[0].Ident?
  }

  lemma TypeStart(t: FormatType)
    ensures StartsType(PrintType(t))
  {
  }

  lemma FromNumbersStart(f: Format)
    ensures var s := PrintFromNumbers(f); StartsType(s) || s[0].IntLit?
  {
    if f.width.None? {
      assert PrintFromNumbers(f) == PrintType(f.ftype);
    }
  }

  lemma FromPrettyStart(f: Format)
    ensures var s := PrintFromPretty(f); StartsType(s) || s[0].IntLit? || s[0] == Punct('#')
  {
    FromNumbersStart(f);
    if !f.pretty {
      assert PrintFromPretty(f) == PrintFromNumbers(f);
    }
  }

  /** The numeric stage: the numeric part read, then the type. */
  lemma NumbersStep(f: Format, ts: seq<Token>, p: nat, p': nat)
    requires WellFormed(f)
    requires NumbersPeek(ts, p) == f.width.Some?
    requires f.width.Some? ==> ParseNumbers(ts, p) == Success(Numbers(f.zero, f.width, f.precision), p')
    requires f.width.None? ==> p' == p
    requires ParseFormatType(ts, p') == Success(f.ftype, |ts|)
    ensures ParseFromNumbers(ts, p, f.align, f.sign, f.pretty) == Success(f, |ts|)
  {
  }

  /** Without a width nothing is printed before the type, and the type never announces a numeric part. */
  lemma NumbersAbsent(t: FormatType, ts: seq<Token>, p: nat)
    requires p <= |ts| && ts[p..] == PrintType(t)
    ensures !NumbersPeek(ts, p)
  {
    TypeStart(t);
    if p < |ts| {
      assert ts[p] == ts[p..][0];
    }
  }

  lemma NumbersRoundTrip(f: Format, ts: seq<Token>, p: nat)
    requires WellFormed(f)
    requires p <= |ts| && ts[p..] == PrintFromNumbers(f)
    ensures ParseFromNumbers(ts, p, f.align, f.sign, f.pretty) == Success(f, |ts|)
  {
    if f.width.None? {
      NoNumbersRoundTrip(f, ts, p);
    } else {
      SomeNumbersRoundTrip(f, ts, p);
    }
  }

  /** Without a width the numbers stage reads nothing and the type follows at once. */
  lemma NoNumbersRoundTrip(f: Format, ts: seq<Token>, p: nat)
    requires WellFormed(f) && f.width.None?
    requires p <= |ts| && ts[p..] == PrintFromNumbers(f)
    ensures ParseFromNumbers(ts, p, f.align, f.sign, f.pretty) == Success(f, |ts|)
  {
    var n := PrintNumbers(f.zero, f.width, f.precision);
    Drop(ts, p, n, PrintType(f.ftype));
    TypeRoundTrip(f.ftype, ts, p + |n|);
    NumbersAbsent(f.ftype, ts, p);
    NumbersStep(f, ts, p, p);
  }

  /** With a width the numbers stage reads it (and the precision), and the type follows. */
  lemma SomeNumbersRoundTrip(f: Format, ts: seq<Token>, p: nat)
    requires WellFormed(f) && f.width.Some?
    requires p <= |ts| && ts[p..] == PrintFromNumbers(f)
    ensures ParseFromNumbers(ts, p, f.align, f.sign, f.pretty) == Success(f, |ts|)
  {
    TypeAfterNumbers(f, ts, p);
    WidthRoundTrip(f, ts, p);
    AtIntLit(ts, p);
    NumbersStep(f, ts, p, p + |PrintNumbers(f.zero, f.width, f.precision)|);
  }

  /** The type printed after the numeric part is read back where the numeric part ends. */
  lemma TypeAfterNumbers(f: Format, ts: seq<Token>, p: nat)
    requires WellFormed(f)
    requires p <= |ts| && ts[p..] == PrintFromNumbers(f)
    ensures ParseFormatType(ts, p + |PrintNumbers(f.zero, f.width, f.precision)|) == Success(f.ftype, |ts|)
  {
    var n := PrintNumbers(f.zero, f.width, f.precision);
    Drop(ts, p, n, PrintType(f.ftype));
    TypeRoundTrip(f.ftype, ts, p + |n|);
  }

  /** A printed width is announced by its literal and read back with its precision. */
  lemma WidthRoundTrip(f: Format, ts: seq<Token>, p: nat)
    requires WellFormed(f) && f.width.Some?
    requires p <= |ts| && ts[p..] == PrintFromNumbers(f)
    ensures NumbersPeek(ts, p) && p < |ts| && ts[p].IntLit?
    ensures ParseNumbers(ts, p) == Success(Numbers(f.zero, f.width, f.precision), p + |PrintNumbers(f.zero, f.width, f.precision)|)
  {
    TypeStart(f.ftype);
    IntNumbersRoundTrip(f.zero, f.width.value, f.precision, ts, p, PrintType(f.ftype));
  }

  /** The pretty stage: `#` is consumed exactly when it was printed. */
  lemma PrettyStep(f: Format, ts: seq<Token>, p: nat, p': nat)
    requires p' == p + |PrintPretty(f.pretty)| && p' <= |ts|
    requires f.pretty ==> ts[p] == Punct('#')
    requires !f.pretty && p < |ts| ==> ts[p] != Punct('#')
    requires ParseFromNumbers(ts, p', f.align, f.sign, f.pretty) == Success(f, |ts|)
    ensures ParseFromPretty(ts, p, f.align, f.sign) == Success(f, |ts|)
  {
  }

  lemma PrettyRoundTrip(f: Format, ts: seq<Token>, p: nat)
    requires WellFormed(f)
    requires p <= |ts| && ts[p..] == PrintFromPretty(f)
    ensures ParseFromPretty(ts, p, f.align, f.sign) == Success(f, |ts|)
  {
    var p' := p + |PrintPretty(f.pretty)|;
    Drop(ts, p, PrintPretty(f.pretty), PrintFromNumbers(f));
    NumbersRoundTrip(f, ts, p');
    if p < |ts| {
      assert ts[p] == ts[p..][0];
      if !f.pretty {
        FromNumbersStart(f);
        assert ts[p] == PrintFromNumbers(f)[0];
      }
    }
    PrettyStep(f, ts, p, p');
  }

  /** The sign stage: a sign is consumed exactly when one was printed. */
  lemma SignStep(f: Format, ts: seq<Token>, p: nat, p': nat)
    requires p' == p + |PrintSign(f.sign)| && p' <= |ts|
    requires f.sign.Some? ==> ts[p] == PrintSign(f.sign)[0]
    requires f.sign.None? && p < |ts| ==> ts[p] != Punct('+') && ts[p] != Punct('-')
    requires ParseFromPretty(ts, p', f.align, f.sign) == Success(f, |ts|)
    ensures ParseFromSign(ts, p, f.align) == Success(f, |ts|)
  {
    assert Optional(SignPeek(ts, p), ParseSign(ts, p), p) == Success(f.sign, p');
  }

  lemma SignRoundTrip(f: Format, ts: seq<Token>, p: nat)
    requires WellFormed(f)
    requires p <= |ts| && ts[p..] == PrintFromSign(f)
    ensures ParseFromSign(ts, p, f.align) == Success(f, |ts|)
  {
    var p' := p + |PrintSign(f.sign)|;
    Drop(ts, p, PrintSign(f.sign), PrintFromPretty(f));
    PrettyRoundTrip(f, ts, p');
    if p < |ts| {
      assert ts[p] == ts[p..][0];
      if f.sign.None? {
        FromPrettyStart(f);
        assert ts[p] == PrintFromPretty(f)[0];
      }
    }
    SignStep(f, ts, p, p');
  }

  lemma AlignRoundTrip(a: Option<Align>, ts: seq<Token>, p: nat, rest: seq<Token>)
    requires p <= |ts| && ts[p..] == PrintAlign(a) + rest
    requires PunctsIn(rest, AfterAlignPuncts)
    ensures Optional(AlignPeek(ts, p), ParseAlign(ts, p), p) == Success(a, p + |PrintAlign(a)|)
  {
    if a.None? {
      NoAlign(ts, p, rest);
    } else {
      assert ts[p] == ts[p..][0] == PrintAlign(a)[0];
      if a.value.fill.Some? {
        assert ts[p + 1] == ts[p..][1] == PrintAlign(a)[1];
      }
    }
  }

  /** What follows the alignment never starts with a direction, neither at its first nor at its second token. */
  lemma NoAlign(ts: seq<Token>, p: nat, rest: seq<Token>)
    requires p <= |ts| && ts[p..] == rest
    requires PunctsIn(rest, AfterAlignPuncts)
    ensures !AlignPeek(ts, p)
  {
    if p < |ts| {
      assert ts[p] == rest[0];
    }
    if p + 1 < |ts| {
      assert ts[p + 1] == rest[1];
    }
  }

  // ----- the round trip and its converse -----

  /** A well-formed specification, printed at the end of a token sequence, is read back exactly. */
  lemma FormatRoundTrip(f: Format, ts: seq<Token>, pos: nat)
    requires WellFormed(f)
    requires pos <= |ts| && ts[pos..] == PrintFormat(f)
    ensures ParseFormat(ts, pos) == Success(f, |ts|)
  {
    var p1 := pos + |PrintAlign(f.align)|;
    Drop(ts, pos, PrintAlign(f.align), PrintFromSign(f));
    FromSignPunctsOnly(f);
    AlignRoundTrip(f.align, ts, pos, PrintFromSign(f));
    SignRoundTrip(f, ts, p1);
    AlignStep(f, ts, pos, p1);
  }

  /** The alignment stage: the alignment read, then everything after it. */
  lemma AlignStep(f: Format, ts: seq<Token>, pos: nat, p1: nat)
    requires Optional(AlignPeek(ts, pos), ParseAlign(ts, pos), pos) == Success(f.align, p1)
    requires ParseFromSign(ts, p1, f.align) == Success(f, |ts|)
    ensures ParseFormat(ts, pos) == Success(f, |ts|)
  {
  }

  lemma FromNumbersWellFormed(ts: seq<Token>, pos: nat, align: Option<Align>, sign: Option<Sign>, pretty: bool)
    requires ParseFromNumbers(ts, pos, align, sign, pretty).Success?
    ensures WellFormed(ParseFromNumbers(ts, pos, align, sign, pretty).value)
  {
    var f := ParseFromNumbers(ts, pos, align, sign, pretty).value;
    if NumbersPeek(ts, pos) {
      var n := ParseNumbers(ts, pos);
      assert n.Success? && n.value.width == f.width && n.value.zero == f.zero && n.value.precision == f.precision;
      NumbersWellFormed(ts, pos);
    }
  }

  /** A numeric part the parser reads obeys the leading-zero rule and names no keyword as its precision. */
  lemma NumbersWellFormed(ts: seq<Token>, pos: nat)
    requires ParseNumbers(ts, pos).Success?
    ensures var n := ParseNumbers(ts, pos).value;
      WidthOk(n.zero, n.width.value) &&
      (n.precision.Some? && n.precision.value.Count? && n.precision.value.count.Parameter? ==>
         !IsKeyword(n.precision.value.count.name))
  {
    var e := LitAt(ts, pos) + 1;
    if IsIntAhead(ts, pos) && IsPunct(ts, e, '.') {
      assert ParsePrecision(ts, e + 1).Success?;
    } else if !IsIntAhead(ts, pos) && FirstDot(LitText(ts, pos)) + 1 == |LitText(ts, pos)| {
      assert ParsePrecision(ts, e).Success?;
    }
  }

  /** Everything the parser produces is well-formed, so the round trip covers all of its results. */
  lemma ParseWellFormed(ts: seq<Token>, pos: nat)
    requires ParseFormat(ts, pos).Success?
    ensures WellFormed(ParseFormat(ts, pos).value)
  {
    var a := Optional(AlignPeek(ts, pos), ParseAlign(ts, pos), pos);
    var s := Optional(SignPeek(ts, a.next), ParseSign(ts, a.next), a.next);
    var h := Optional(IsPunct(ts, s.next, '#'), ExpectPunct(ts, s.next, '#'), s.next);
    FromNumbersWellFormed(ts, h.next, a.value, s.value, h.value.Some?);
  }

  // ----- the source's test cases, as token sequences -----

  const Plain := Format(None, None, false, false, None, None, Display)

  /** A test case is the printed form of its expected specification, so the round trip reads it. */
  lemma ReadsPrinted(f: Format, ts: seq<Token>)
    requires WellFormed(f) && PrintFormat(f) == ts
    ensures ParseFormat(ts, 0) == Success(f, |ts|)
  {
    assert ts[0..] == ts;
    FormatRoundTrip(f, ts, 0);
  }

  lemma FormattingTypeDisplay()
    ensures ParseFormat([], 0) == Success(Plain, 0)
    ensures ParseFormat([Punct('?')], 0) == Success(Plain.(ftype := Debug), 1)
  {
    ReadsPrinted(Plain, []);
    ReadsPrinted(Plain.(ftype := Debug), [Punct('?')]);
  }

  lemma FormattingTypeLowerHex()
    ensures ParseFormat([Ident("x"), Punct('?')], 0) == Success(Plain.(ftype := DebugLowerHex), 2)
  {
    ReadsPrinted(Plain.(ftype := DebugLowerHex), [Ident("x"), Punct('?')]);
  }

  lemma FormattingTypeUpperHex()
    ensures ParseFormat([Ident("X"), Punct('?')], 0) == Success(Plain.(ftype := DebugUpperHex), 2)
  {
    ReadsPrinted(Plain.(ftype := DebugUpperHex), [Ident("X"), Punct('?')]);
  }

  lemma FormattingTypeOther()
    ensures ParseFormat([Ident("o")], 0) == Success(Plain.(ftype := Other("o")), 1)
  {
    assert !IsKeyword("o");
    ReadsPrinted(Plain.(ftype := Other("o")), [Ident("o")]);
  }

  /** A `?` after any identifier but `x` and `X` is refused. */
  lemma FormattingTypeBadHex()
    ensures ParseFormat([Ident("o"), Punct('?')], 0) == Failure(ExpectedHexSuffix)
  {
    var ts := [Ident("o"), Punct('?')];
    assert !IsKeyword("o");
    assert !AlignPeek(ts, 0) && !SignPeek(ts, 0) && !IsPunct(ts, 0, '#') && !NumbersPeek(ts, 0);
    assert ParseFormatType(ts, 0) == Failure(ExpectedHexSuffix);
  }

  lemma FormattingTypeLongBadHex()
    ensures ParseFormat([Ident("adbjadsbvja"), Punct('?')], 0) == Failure(ExpectedHexSuffix)
  {
    var ts := [Ident("adbjadsbvja"), Punct('?')];
    assert !IsKeyword("adbjadsbvja");
    assert !AlignPeek(ts, 0) && !SignPeek(ts, 0) && !IsPunct(ts, 0, '#') && !NumbersPeek(ts, 0);
    assert ParseFormatType(ts, 0) == Failure(ExpectedHexSuffix);
  }

  lemma FormattingWidth()
    ensures ParseFormat([IntLit("5")], 0) == Success(Plain.(width := Some("5")), 1)
    ensures ParseFormat([IntLit("05")], 0) == Success(Plain.(zero := true, width := Some("5")), 1)
  {
    assert "" + "5" == "5";
    ReadsPrinted(Plain.(width := Some("5")), [IntLit("5")]);
    assert "0" + "5" == "05";
    ReadsPrinted(Plain.(zero := true, width := Some("5")), [IntLit("05")]);
  }

  lemma FormattingLeadingZeros()
    ensures ParseFormat([IntLit("005")], 0) == Failure(LeadingZeros)
  {
  }

  lemma FormattingPretty()
    ensures ParseFormat([Punct('#')], 0) == Success(Plain.(pretty := true), 1)
  {
    ReadsPrinted(Plain.(pretty := true), [Punct('#')]);
  }

  lemma FormattingSign()
    ensures ParseFormat([Punct('+')], 0) == Success(Plain.(sign := Some(Positive)), 1)
    ensures ParseFormat([Punct('-')], 0) == Success(Plain.(sign := Some(Negative)), 1)
  {
    ReadsPrinted(Plain.(sign := Some(Positive)), [Punct('+')]);
    ReadsPrinted(Plain.(sign := Some(Negative)), [Punct('-')]);
  }

  lemma FormattingAlign()
    ensures ParseFormat([Punct('<')], 0) == Success(Plain.(align := Some(Align(None, Left))), 1)
    ensures ParseFormat([Punct('^')], 0) == Success(Plain.(align := Some(Align(None, Center))), 1)
    ensures ParseFormat([Punct('>')], 0) == Success(Plain.(align := Some(Align(None, Right))), 1)
  {
    ReadsDirection(Left);
    ReadsDirection(Center);
    ReadsDirection(Right);
  }

  lemma ReadsDirection(d: Direction)
    ensures ParseFormat([Punct(DirectionChar(d))], 0) == Success(Plain.(align := Some(Align(None, d))), 1)
  {
    ReadsPrinted(Plain.(align := Some(Align(None, d))), [Punct(DirectionChar(d))]);
  }

  lemma FormattingFill()
    ensures ParseFormat([CharLit('0'), Punct('>')], 0) == Success(Plain.(align := Some(Align(Some('0'), Right))), 2)
    ensures ParseFormat([CharLit('0'), Punct('>'), IntLit("6")], 0)
         == Success(Plain.(align := Some(Align(Some('0'), Right)), width := Some("6")), 3)
  {
    ReadsPrinted(Plain.(align := Some(Align(Some('0'), Right))), [CharLit('0'), Punct('>')]);
    assert "" + "6" == "6";
    ReadsPrinted(Plain.(align := Some(Align(Some('0'), Right)), width := Some("6")), [CharLit('0'), Punct('>'), IntLit("6")]);
  }

  /** `'0'>+#6.5`, whose `6.5` is one float literal split at its dot. */
  lemma FormattingFloatWidth()
    ensures ParseFormat([CharLit('0'), Punct('>'), Punct('+'), Punct('#'), FloatLit("6.5", "")], 0)
         == Success(Format(Some(Align(Some('0'), Right)), Some(Positive), true, false, Some("6"),
                           Some(Count(Integer("5"))), Display), 5)
  {
    var ts := [CharLit('0'), Punct('>'), Punct('+'), Punct('#'), FloatLit("6.5", "")];
    assert FirstDot("6.5") == 1;
    assert "6.5"[..1] == "6" && "6.5"[2..] == "5";
    assert LitAt(ts, 4) == 4 && LitText(ts, 4) == "6.5";
    assert ParseNumbers(ts, 4) == Success(Numbers(false, Some("6"), Some(Count(Integer("5")))), 5);
  }

  lemma FormattingFillDebug()
    ensures ParseFormat([CharLit('2'), Punct('>'), Punct('?')], 0)
         == Success(Plain.(align := Some(Align(Some('2'), Right)), ftype := Debug), 3)
  {
    ReadsPrinted(Plain.(align := Some(Align(Some('2'), Right)), ftype := Debug), [CharLit('2'), Punct('>'), Punct('?')]);
  }

  /**
   * `#-5`: once the sign has been passed, a `-` before a literal is part of
   * a negative width.
   */
  lemma NegativeWidth()
    ensures ParseFormat([Punct('#'), Punct('-'), IntLit("5")], 0) == Success(Plain.(pretty := true, width := Some("-5")), 3)
  {
    assert LitText([Punct('#'), Punct('-'), IntLit("5")], 1) == "-5";
  }

  /** `5.-3`: a negative precision. */
  lemma NegativePrecision()
    ensures ParseFormat([IntLit("5"), Punct('.'), Punct('-'), IntLit("3")], 0)
         == Success(Plain.(width := Some("5"), precision := Some(Count(Integer("-3")))), 4)
  {
    var ts := [IntLit("5"), Punct('.'), Punct('-'), IntLit("3")];
    assert LitText(ts, 2) == "-3" && LitAt(ts, 0) == 0 && LitText(ts, 0) == "5";
    assert ParsePrecision(ts, 2) == Success(Count(Integer("-3")), 4);
    assert ParseNumbers(ts, 0) == Success(Numbers(false, Some("5"), Some(Count(Integer("-3")))), 4);
  }

  /** After a zero flag, `x5` (of `0x5`) is not an integer literal: a panic. */
  lemma ZeroHexPanics()
    ensures ParseFormat([IntLit("0x5")], 0) == Failure(NotAnInteger)
  {
    assert ParseNumbers([IntLit("0x5")], 0) == Failure(NotAnInteger);
  }

  /** Nor is `u8` of `0u8`. */
  lemma ZeroSuffixPanics()
    ensures ParseFormat([IntLit("0u8")], 0) == Failure(NotAnInteger)
  {
    assert ParseNumbers([IntLit("0u8")], 0) == Failure(NotAnInteger);
  }

  /** The fraction `5e3` of `6.5e3` is not an integer literal either. */
  lemma ExponentPanics()
    ensures ParseFormat([FloatLit("6.5e3", "")], 0) == Failure(NotAnInteger)
  {
    var ts := [FloatLit("6.5e3", "")];
    ExponentFraction();
    assert !AlignPeek(ts, 0) && !SignPeek(ts, 0) && !IsPunct(ts, 0, '#') && NumbersPeek(ts, 0);
  }

  lemma ExponentFraction()
    ensures ParseNumbers([FloatLit("6.5e3", "")], 0) == Failure(NotAnInteger)
  {
    var ts := [FloatLit("6.5e3", "")];
    assert LitAt(ts, 0) == 0 && LitText(ts, 0) == "6.5e3" && FirstDot("6.5e3") == 1;
    assert "6.5e3"[2..] == "5e3" && "5e3"[1] == 'e';
    assert HasExponent("5e3");
    assert ParseFloatNumbers(ts, 0) == Failure(NotAnInteger);
  }

  /**
   * A precision without a width (`.5`, `.*`) is not accepted: nothing but a
   * literal announces the numeric part, so the `.` is read as the type and
   * refused as an identifier.
   */
  lemma LeadingDotRejected(rest: seq<Token>)
    requires !IsDirection(rest, 0)
    ensures ParseFormat([Punct('.')] + rest, 0) == Failure(ExpectedIdent)
  {
    var ts := [Punct('.')] + rest;
    assert ts[0] == Punct('.');
    if |rest| > 0 {
      assert ts[1] == rest[0];
    }
    if |rest| > 0 && rest[0] == Punct('?') {
      assert ts[1] == Punct('?');
    }
  }

  /**
   * When a direction does follow the leading `.`, the alignment is announced
   * but the `.` is no fill (only a character literal is), so the direction
   * is looked for at the `.` and is missing.
   */
  lemma LeadingDotBeforeDirection(rest: seq<Token>)
    requires IsDirection(rest, 0)
    ensures ParseFormat([Punct('.')] + rest, 0) == Failure(ExpectedAlignDirection)
  {
    var ts := [Punct('.')] + rest;
    assert ts[0] == Punct('.') && ts[1] == rest[0];
    assert AlignPeek(ts, 0) && !IsCharLit(ts, 0);
    assert ParseDirection(ts, 0) == Failure(ExpectedAlignDirection);
  }
}
