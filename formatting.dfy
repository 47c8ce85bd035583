/**
 * The formatting specification that may follow `:` inside a mustache, after
 * the standard library's format-spec grammar:
 *
 *     [[fill] align] [sign] ['#'] [['0'] width ['.' precision]] [type]
 *
 * read from token trees. Each optional part is parsed only when its own peek
 * says it is there (`flip`), the numeric part comes either as an integer
 * literal (optionally followed by `.` and a precision) or as a float literal
 * whose text is split at its `.`, and the type is whatever is left.
 */
module Formatting {
  import opened Tokens

  /** `flip`: an optional result turned into a result of an option; `Unflip` undoes it. */
  function Flip<T, E>(o: Option<Result<T, E>>): (r: Result<Option<T>, E>)
    ensures r.Err? <==> o.Some? && o.value.Err?
    ensures Unflip(r) == o
  {
    match o
    case Some(Ok(x)) => Ok(Some(x))
    case Some(Err(e)) => Err(e)
    case None => Ok(None)
  }

  function Unflip<T, E>(r: Result<Option<T>, E>): Option<Result<T, E>> {
    match r
    case Ok(Some(x)) => Some(Ok(x))
    case Ok(None) => None
    case Err(e) => Some(Err(e))
  }

  /** `flip` is a bijection: every result of an option comes from exactly one optional result. */
  lemma FlipUnflip<T, E>(r: Result<Option<T>, E>)
    ensures Flip(Unflip(r)) == r
  {
  }

  datatype Direction = Left | Center | Right

  datatype Align = Align(fill: Option<char>, direction: Direction)

  datatype Sign = Positive | Negative

  datatype Count = Parameter(name: string) | Integer(digits: string)

  datatype Precision = Star | Count(count: Count)

  datatype FormatType = Display | Debug | DebugLowerHex | DebugUpperHex | Other(ident: string)

  /** The numeric part: a leading `0` flag, a width and a precision, as literal texts. */
  datatype Numbers = Numbers(zero: bool, width: Option<string>, precision: Option<Precision>)

  datatype Format = Format(align: Option<Align>, sign: Option<Sign>, pretty: bool, zero: bool,
                           width: Option<string>, precision: Option<Precision>, ftype: FormatType)

  function DirectionChar(d: Direction): char {
    match d
    case Left => '<'
    case Center => '^'
    case Right => '>'
  }

  predicate IsDirection(ts: seq<Token>, i: nat) {
    IsPunct(ts, i, '<') || IsPunct(ts, i, '^') || IsPunct(ts, i, '>')
  }

  /** An alignment is announced by a direction at the first or at the second token. */
  predicate AlignPeek(ts: seq<Token>, pos: nat) {
    IsDirection(ts, pos) || IsDirection(ts, pos + 1)
  }

  predicate SignPeek(ts: seq<Token>, pos: nat) {
    IsPunct(ts, pos, '+') || IsPunct(ts, pos, '-')
  }

  /**
   * A literal as the literal peeks see it: the literal token, or `-`
   * followed by one, which reads as a single negative literal.
   */
  predicate IsIntAhead(ts: seq<Token>, i: nat) {
    IsIntLit(ts, i) || (IsPunct(ts, i, '-') && IsIntLit(ts, i + 1))
  }

  predicate IsFloatAhead(ts: seq<Token>, i: nat) {
    IsFloatLit(ts, i) || (IsPunct(ts, i, '-') && IsFloatLit(ts, i + 1))
  }

  /** Where the literal token itself stands: after its `-`, if it has one. */
  function LitAt(ts: seq<Token>, i: nat): nat {
    if IsPunct(ts, i, '-') then i + 1 else i
  }

  /** A literal's text as it prints: the token's text, after a `-` for a negative literal. */
  function LitText(ts: seq<Token>, i: nat): string
    requires IsIntAhead(ts, i) || IsFloatAhead(ts, i)
  {
    if IsPunct(ts, i, '-') then "-" + ts[i + 1].text else ts[i].text
  }

  predicate IsDigit(c: char) {
    '0' <= c <= '9'
  }

  /** An exponent in the text of a float's fraction, which has no suffix. */
  predicate HasExponent(s: string) {
    exists k :: 0 <= k < |s| && (s[k] == 'e' || s[k] == 'E')
  }

  /**
   * `LitInt::new` on a text cut out of a literal panics unless that text is
   * itself an integer literal.
   */
  const NotAnInteger := Panic("LitInt::new on a text that is not an integer literal")

  predicate NumbersPeek(ts: seq<Token>, pos: nat) {
    IsIntAhead(ts, pos) || IsFloatAhead(ts, pos)
  }

  /** The direction variants, tried in the order `>`, `^`, `<`. */
  function ParseDirection(ts: seq<Token>, pos: nat): (r: PResult<Direction>)
    ensures r.Success? <==> IsDirection(ts, pos)
    ensures r.Success? ==> r.next == pos + 1 && ts[pos] == Punct(DirectionChar(r.value))
    ensures r.Failure? ==> r.error == ExpectedAlignDirection
  {
    if IsPunct(ts, pos, '>') then Success(Right, pos + 1)
    else if IsPunct(ts, pos, '^') then Success(Center, pos + 1)
    else if IsPunct(ts, pos, '<') then Success(Left, pos + 1)
    else Failure(ExpectedAlignDirection)
  }

  /** An optional character literal (the fill) and a direction. */
  function ParseAlign(ts: seq<Token>, pos: nat): (r: PResult<Align>)
    ensures r.Success? ==> r.value.fill.Some? == IsCharLit(ts, pos)
    ensures r.Success? && r.value.fill.Some? ==> ts[pos] == CharLit(r.value.fill.value)
    ensures r.Success? ==> r.next == pos + (if r.value.fill.Some? then 2 else 1)
    ensures r.Success? ==> r.next <= |ts| && ts[r.next - 1] == Punct(DirectionChar(r.value.direction))
    ensures r.Failure? ==> r.error == ExpectedAlignDirection
  {
    var fill := if IsCharLit(ts, pos) then Some(ts[pos].value) else None;
    var p := if IsCharLit(ts, pos) then pos + 1 else pos;
    match ParseDirection(ts, p)
    case Failure(e) => Failure(e)
    case Success(d, q) => Success(Align(fill, d), q)
  }

  function ParseSign(ts: seq<Token>, pos: nat): (r: PResult<Sign>)
    ensures r.Success? <==> SignPeek(ts, pos)
    ensures r.Success? ==> r.next == pos + 1 && (r.value == Positive <==> ts[pos] == Punct('+'))
    ensures r.Failure? ==> r.error == ExpectedSign
  {
    if IsPunct(ts, pos, '+') then Success(Positive, pos + 1)
    else if IsPunct(ts, pos, '-') then Success(Negative, pos + 1)
    else Failure(ExpectedSign)
  }

  /** A count: an integer literal (negative ones included), or a parameter `name$`. */
  function ParseCount(ts: seq<Token>, pos: nat): (r: PResult<Count>)
    ensures r.Success? <==> IsIntAhead(ts, pos) || (IsIdent(ts, pos) && IsPunct(ts, pos + 1, '$'))
    ensures r.Success? && r.value.Integer? ==>
      (ts[pos] == IntLit(r.value.digits) && r.next == pos + 1) ||
      (ts[pos] == Punct('-') && pos + 1 < |ts| && ts[pos + 1].IntLit? &&
       r.value.digits == "-" + ts[pos + 1].text && r.next == pos + 2)
    ensures r.Success? && r.value.Parameter? ==>
      ts[pos] == Ident(r.value.name) && !IsKeyword(r.value.name) && r.next == pos + 2
    ensures r.Failure? ==> r.error == ExpectedCount
  {
    if IsIntAhead(ts, pos) then Success(Integer(LitText(ts, pos)), LitAt(ts, pos) + 1)
    else if IsIdent(ts, pos) && IsPunct(ts, pos + 1, '$') then Success(Parameter(ts[pos].name), pos + 2)
    else Failure(ExpectedCount)
  }

  /** A precision after its `.`: `*`, or a count. */
  function ParsePrecision(ts: seq<Token>, pos: nat): (r: PResult<Precision>)
    ensures r.Success? ==> (r.value == Star <==> IsPunct(ts, pos, '*'))
    ensures r.Success? && r.value == Star ==> r.next == pos + 1
    ensures !IsPunct(ts, pos, '*') ==> r == (match ParseCount(ts, pos)
                                               case Failure(e) => Failure(e)
                                               case Success(c, q) => Success(Count(c), q))
    ensures r.Failure? ==> r.error != OutOfFuel
  {
    if IsPunct(ts, pos, '*') then Success(Star, pos + 1)
    else
      match ParseCount(ts, pos)
      case Failure(e) => Failure(e)
      case Success(c, q) => Success(Count(c), q)
  }

  /**
   * The leading-zero rule shared by integer and float widths: `00…` is an
   * error, `0w` is the zero flag with width `w` (a panic when `w` does not
   * start with a decimal digit, as in `0x5`, `0_5` or `0u8`), and anything
   * else (including a lone `0`) is the width itself.
   */
  function SplitZero(s: string, precision: Option<Precision>, next: nat): (r: PResult<Numbers>)
    ensures r.Failure? <==> |s| > 1 && s[0] == '0' && !('1' <= s[1] <= '9')
    ensures r.Failure? ==> r.error == (if s[1] == '0' then LeadingZeros else NotAnInteger)
    ensures r.Success? ==> r.next == next && r.value.precision == precision && r.value.width.Some?
    ensures r.Success? ==> (r.value.zero <==> |s| > 1 && s[0] == '0')
    ensures r.Success? ==> (if r.value.zero then "0" + r.value.width.value else r.value.width.value) == s
    ensures r.Success? && r.value.zero ==> '1' <= r.value.width.value[0] <= '9'
  {
    if |s| > 1 then
      if s[0] == '0' && s[1] == '0' then Failure(LeadingZeros)
      else if s[0] == '0' then
        if IsDigit(s[1]) then Success(Numbers(true, Some(s[1..]), precision), next) else Failure(NotAnInteger)
      else Success(Numbers(false, Some(s), precision), next)
    else Success(Numbers(false, Some(s), precision), next)
  }

  /** The index of the first `.` in a literal's text, or its length when there is none. */
  function FirstDot(s: string): (k: nat)
    ensures k <= |s|
    ensures k < |s| ==> s[k] == '.'
    ensures forall j :: 0 <= j < k ==> s[j] != '.'
  {
    if s == [] then 0
    else if s[0] == '.' then 0
    else 1 + FirstDot(s[1..])
  }

  /**
   * The numeric part: an integer literal or a float literal, either of them
   * possibly negative; nothing else announces it.
   */
  function ParseNumbers(ts: seq<Token>, pos: nat): (r: PResult<Numbers>)
    ensures !NumbersPeek(ts, pos) ==> r == Failure(ExpectedNumbers)
    ensures r.Success? ==> r.value.width.Some? && pos < r.next <= |ts|
    ensures r.Success? && IsFloatAhead(ts, pos) ==> r.value.precision.Some? && ts[LitAt(ts, pos)].suffix == []
    ensures r.Success? && IsPunct(ts, pos, '-') ==> !r.value.zero && |r.value.width.value| > 0 && r.value.width.value[0] == '-'
    ensures r.Failure? ==> r.error != OutOfFuel
  {
    if IsIntAhead(ts, pos) then ParseIntNumbers(ts, pos)
    else if IsFloatAhead(ts, pos) then ParseFloatNumbers(ts, pos)
    else Failure(ExpectedNumbers)
  }

  /**
   * An integer literal is the width (after the leading-zero rule), optionally
   * followed by `.` and a precision; a failing precision is reported before
   * the leading-zero rule is applied.
   */
  function ParseIntNumbers(ts: seq<Token>, pos: nat): (r: PResult<Numbers>)
    requires IsIntAhead(ts, pos)
    ensures r.Success? ==> r.value.width.Some? && pos < r.next <= |ts|
    ensures var e := LitAt(ts, pos) + 1;
      !IsPunct(ts, e, '.') ==> r == SplitZero(LitText(ts, pos), None, e)
    ensures var e := LitAt(ts, pos) + 1;
      IsPunct(ts, e, '.') && ParsePrecision(ts, e + 1).Failure? ==> r == Failure(ParsePrecision(ts, e + 1).error)
    ensures r.Success? ==> (r.value.precision.Some? <==> IsPunct(ts, LitAt(ts, pos) + 1, '.'))
    ensures r.Failure? ==> r.error != OutOfFuel
  {
    var s, e := LitText(ts, pos), LitAt(ts, pos) + 1;
    if IsPunct(ts, e, '.') then
      match ParsePrecision(ts, e + 1)
      case Failure(e) => Failure(e)
      case Success(p, q) => SplitZero(s, Some(p), q)
    else SplitZero(s, None, e)
  }

  /**
   * A float literal without suffix is split at its first `.` into width and
   * precision; when nothing follows its `.` the precision is the next tokens,
   * and otherwise the fraction is the precision, a panic when it is not an
   * integer literal (`6.5e3`).
   */
  function ParseFloatNumbers(ts: seq<Token>, pos: nat): (r: PResult<Numbers>)
    requires IsFloatAhead(ts, pos)
    ensures ts[LitAt(ts, pos)].suffix != [] ==> r == Failure(ExpectedNumbers)
    ensures FirstDot(LitText(ts, pos)) == |LitText(ts, pos)| ==> r == Failure(ExpectedNumbers)
    ensures var t := LitText(ts, pos); var k := FirstDot(t);
      ts[LitAt(ts, pos)].suffix == [] && k + 1 < |t| && (!IsDigit(t[k + 1]) || HasExponent(t[k + 1..])) ==>
      r == Failure(NotAnInteger)
    ensures r.Success? ==> r.value.width.Some? && r.value.precision.Some? && pos < r.next <= |ts|
    ensures r.Failure? ==> r.error != OutOfFuel
  {
    var t, i := LitText(ts, pos), LitAt(ts, pos);
    var k := FirstDot(t);
    if ts[i].suffix != [] || k == |t| then Failure(ExpectedNumbers)
    else
      var whole, after := t[..k], t[k + 1..];
      if after == [] then
        match ParsePrecision(ts, i + 1)
        case Failure(e) => Failure(e)
        case Success(p, q) => SplitZero(whole, Some(p), q)
      else if !IsDigit(after[0]) || HasExponent(after) then Failure(NotAnInteger)
      else SplitZero(whole, Some(Count(Integer(after))), i + 1)
  }

  /** The type: nothing left, `?`, `x?`, `X?`, or an identifier. */
  function ParseFormatType(ts: seq<Token>, pos: nat): (r: PResult<FormatType>)
    ensures r.Success? ==> (r.value == Display <==> pos >= |ts|)
    ensures r.Success? && r.value == Display ==> r.next == pos
    ensures r.Success? && r.value == Debug ==> ts[pos] == Punct('?') && r.next == pos + 1
    ensures r.Success? && (r.value == DebugLowerHex || r.value == DebugUpperHex) ==>
      ts[pos] == Ident(if r.value == DebugLowerHex then "x" else "X") && IsPunct(ts, pos + 1, '?') && r.next == pos + 2
    ensures r.Success? && r.value.Other? ==>
      ts[pos] == Ident(r.value.ident) && !IsKeyword(r.value.ident) && r.next == pos + 1
    ensures (pos < |ts| && !IsPunct(ts, pos, '?') && IsPunct(ts, pos + 1, '?') && IsIdent(ts, pos) &&
             ts[pos].name != "x" && ts[pos].name != "X") ==> r == Failure(ExpectedHexSuffix)
    ensures r.Failure? ==> r.error != OutOfFuel
  {
    if pos >= |ts| then Success(Display, pos)
    else if IsPunct(ts, pos, '?') then Success(Debug, pos + 1)
    else if IsPunct(ts, pos + 1, '?') then
      match ExpectIdent(ts, pos)
      case Failure(e) => Failure(e)
      case Success(i, _) =>
        if i == "x" then Success(DebugLowerHex, pos + 2)
        else if i == "X" then Success(DebugUpperHex, pos + 2)
        else Failure(ExpectedHexSuffix)
    else
      match ExpectIdent(ts, pos)
      case Failure(e) => Failure(e)
      case Success(i, q) => Success(Other(i), q)
  }

  /**
   * One optional part, parsed only when its peek holds: the `flip` of the
   * peek's outcome mapped to the part's parse, on a cursor.
   */
  function Optional<T>(peeked: bool, r: PResult<T>, pos: nat): (o: PResult<Option<T>>)
    ensures !peeked ==> o == Success(None, pos)
    ensures peeked && r.Success? ==> o == Success(Some(r.value), r.next)
    ensures peeked && r.Failure? ==> o == Failure(r.error)
  {
    if !peeked then Success(None, pos)
    else
      match r
      case Failure(e) => Failure(e)
      case Success(x, q) => Success(Some(x), q)
  }

  /**
   * A whole formatting specification, each optional part guarded by its
   * peek; the stages below take the parts read so far.
   */
  function ParseFormat(ts: seq<Token>, pos: nat): (r: PResult<Format>)
    ensures r.Success? ==> pos <= r.next
    ensures r.Success? ==> (r.value.align.Some? <==> AlignPeek(ts, pos))
    ensures r.Success? ==> (r.value.zero ==> r.value.width.Some?) && (r.value.precision.Some? ==> r.value.width.Some?)
    ensures r.Failure? ==> r.error != OutOfFuel
  {
    match Optional(AlignPeek(ts, pos), ParseAlign(ts, pos), pos)
    case Failure(e) => Failure(e)
    case Success(align, p) => ParseFromSign(ts, p, align)
  }

  function ParseFromSign(ts: seq<Token>, pos: nat, align: Option<Align>): (r: PResult<Format>)
    ensures r.Success? ==> pos <= r.next && r.value.align == align
    ensures r.Success? ==> (r.value.zero ==> r.value.width.Some?) && (r.value.precision.Some? ==> r.value.width.Some?)
    ensures r.Failure? ==> r.error != OutOfFuel
  {
    match Optional(SignPeek(ts, pos), ParseSign(ts, pos), pos)
    case Failure(e) => Failure(e)
    case Success(sign, p) => ParseFromPretty(ts, p, align, sign)
  }

  function ParseFromPretty(ts: seq<Token>, pos: nat, align: Option<Align>, sign: Option<Sign>): (r: PResult<Format>)
    ensures r.Success? ==> pos <= r.next && r.value.align == align && r.value.sign == sign
    ensures r.Success? ==> r.value.pretty == IsPunct(ts, pos, '#')
    ensures r.Success? ==> (r.value.zero ==> r.value.width.Some?) && (r.value.precision.Some? ==> r.value.width.Some?)
    ensures r.Failure? ==> r.error != OutOfFuel
  {
    match Optional(IsPunct(ts, pos, '#'), ExpectPunct(ts, pos, '#'), pos)
    case Failure(e) => Failure(e)
    case Success(pretty, p) => ParseFromNumbers(ts, p, align, sign, pretty.Some?)
  }

  /** The numeric part, absent unless a literal announces it, and then the type. */
  function ParseFromNumbers(ts: seq<Token>, pos: nat, align: Option<Align>, sign: Option<Sign>, pretty: bool): (r: PResult<Format>)
    ensures r.Success? ==> pos <= r.next && r.value.align == align && r.value.sign == sign && r.value.pretty == pretty
    ensures r.Success? ==> (r.value.width.Some? <==> NumbersPeek(ts, pos))
    ensures r.Success? ==> (r.value.zero ==> r.value.width.Some?) && (r.value.precision.Some? ==> r.value.width.Some?)
    ensures r.Failure? ==> r.error != OutOfFuel
  {
    match Optional(NumbersPeek(ts, pos), ParseNumbers(ts, pos), pos)
    case Failure(e) => Failure(e)
    case Success(numbers, p) =>
      var n := if numbers.Some? then numbers.value else Numbers(false, None, None);
      match ParseFormatType(ts, p)
      case Failure(e) => Failure(e)
      case Success(t, q) => Success(Format(align, sign, pretty, n.zero, n.width, n.precision, t), q)
  }
}
