/**
 * Token trees as the host tokenizer hands them to the parser, the cursor
 * operations every grammar rule is built from (peeks one, two and three
 * tokens ahead, consuming one token, opening a brace group), and the result
 * and error types shared by all parsers.
 *
 * A cursor is a token sequence together with a position in it; forking a
 * cursor is reusing the position in a second computation, so nothing a
 * forked parse does can move the real position.
 */
module Tokens {

  datatype Option<+T> = None | Some(value: T)

  datatype Result<+T, +E> = Ok(value: T) | Err(error: E)

  datatype Delimiter = Paren | Bracket | Brace

  /** One token tree: a delimited group counts as a single token. */
  datatype Token =
    | Punct(ch: char)
    | Ident(name: string)
    | IntLit(text: string)
    | FloatLit(text: string, suffix: string)
    | CharLit(value: char)
    | StrLit(contents: string)
    | Group(delim: Delimiter, inner: seq<Token>)

  /**
   * Words the identifier parser refuses (keywords of the host language),
   * grouped by length so that deciding membership compares few words.
   */
  function KeywordsOfLength(n: nat): set<string> {
    if n == 1 then {"_"}
    else if n == 2 then {"as", "do", "fn", "if", "in"}
    else if n == 3 then {"box", "dyn", "for", "let", "mod", "mut", "pub", "ref", "try", "use"}
    else if n == 4 then {"else", "enum", "impl", "loop", "move", "priv", "Self", "self", "true", "type"}
    else if n == 5 then {"async", "await", "break", "const", "crate", "false", "final", "macro", "match",
                         "super", "trait", "where", "while", "yield"}
    else if n == 6 then {"become", "extern", "return", "static", "struct", "typeof", "unsafe"}
    else if n == 7 then {"unsized", "virtual"}
    else if n == 8 then {"abstract", "continue", "override"}
    else {}
  }

  /** The longest keyword has eight letters. */
  predicate IsKeyword(w: string) {
    KeywordUpTo(w, 8)
  }

  /** Whether `w` is a keyword of at most `n` letters, tried from the longest down. */
  predicate KeywordUpTo(w: string, n: nat)
    decreases n
  {
    n > 0 && ((|w| == n && w in KeywordsOfLength(n)) || KeywordUpTo(w, n - 1))
  }

  datatype ParseError =
    | ExpectedPunct(ch: char)
    | ExpectedIdent
    | ExpectedKeyword(word: string)
    | ExpectedBraces
    | UnexpectedEnd
    | UnexpectedToken
    | ExpectedExpression
    | ExpectedAlignDirection
    | ExpectedSign
    | LeadingZeros
    | ExpectedNumbers
    | ExpectedCount
    | ExpectedHexSuffix
    | ExpectedRoot
    | ExpectedTagEnd
    | Unclosed(name: seq<string>)
    | ExpectedAttribute
    | ExpectedAttributeValue
    | ExpectedIfDivider
    | Panic(reason: string)
    | OutOfFuel

  /** The outcome of one parse: the value and the position after it, or an error. */
  datatype PResult<+T> = Success(value: T, next: nat) | Failure(error: ParseError)

  // ----- peeks: none of them consumes anything -----

  predicate IsPunct(ts: seq<Token>, i: nat, c: char) {
    i < |ts| && ts[i] == Punct(c)
  }

  /** An identifier that is not a keyword. */
  predicate IsIdent(ts: seq<Token>, i: nat) {
    i < |ts| && ts[i].Ident? && !IsKeyword(ts[i].name)
  }

  /** A keyword or custom keyword, matched by its spelling. */
  predicate IsWord(ts: seq<Token>, i: nat, w: string) {
    i < |ts| && ts[i] == Ident(w)
  }

  predicate IsBrace(ts: seq<Token>, i: nat) {
    i < |ts| && ts[i].Group? && ts[i].delim == Brace
  }

  predicate IsGroup(ts: seq<Token>, i: nat, d: Delimiter) {
    i < |ts| && ts[i].Group? && ts[i].delim == d
  }

  predicate IsIntLit(ts: seq<Token>, i: nat) {
    i < |ts| && ts[i].IntLit?
  }

  predicate IsFloatLit(ts: seq<Token>, i: nat) {
    i < |ts| && ts[i].FloatLit?
  }

  predicate IsCharLit(ts: seq<Token>, i: nat) {
    i < |ts| && ts[i].CharLit?
  }

  predicate IsStrLit(ts: seq<Token>, i: nat) {
    i < |ts| && ts[i].StrLit?
  }

  // ----- consuming one token -----

  /** A required punctuation token. */
  function ExpectPunct(ts: seq<Token>, pos: nat, c: char): (r: PResult<char>)
    ensures r.Success? <==> IsPunct(ts, pos, c)
    ensures r.Success? ==> r.value == c && r.next == pos + 1
    ensures r.Failure? ==> r.error == ExpectedPunct(c)
  {
    if IsPunct(ts, pos, c) then Success(c, pos + 1) else Failure(ExpectedPunct(c))
  }

  /** A required run of punctuation tokens, such as `</>` or `-->`. */
  function ExpectPuncts(ts: seq<Token>, pos: nat, cs: seq<char>): (r: PResult<()>)
    ensures r.Success? <==> forall k :: 0 <= k < |cs| ==> IsPunct(ts, pos + k, cs[k])
    ensures r.Success? ==> r.next == pos + |cs|
    ensures r.Failure? ==> exists k :: 0 <= k < |cs| && r.error == ExpectedPunct(cs[k])
    decreases |cs|
  {
    if cs == [] then Success((), pos)
    else if !IsPunct(ts, pos, cs[0]) then Failure(ExpectedPunct(cs[0]))
    else
      var r := ExpectPuncts(ts, pos + 1, cs[1..]);
      assert forall k :: 1 <= k < |cs| ==> cs[k] == cs[1..][k - 1];
      r
  }

  /** A required keyword such as `if`, `else`, `match` or the custom keyword `case`. */
  function ExpectWord(ts: seq<Token>, pos: nat, w: string): (r: PResult<()>)
    ensures r.Success? <==> IsWord(ts, pos, w)
    ensures r.Success? ==> r.next == pos + 1
    ensures r.Failure? ==> r.error == ExpectedKeyword(w)
  {
    if IsWord(ts, pos, w) then Success((), pos + 1) else Failure(ExpectedKeyword(w))
  }

  /** An identifier that is not a keyword. */
  function ExpectIdent(ts: seq<Token>, pos: nat): (r: PResult<string>)
    ensures r.Success? <==> IsIdent(ts, pos)
    ensures r.Success? ==> r.next == pos + 1 && ts[pos] == Ident(r.value) && !IsKeyword(r.value)
    ensures r.Failure? ==> r.error == ExpectedIdent
  {
    if IsIdent(ts, pos) then Success(ts[pos].name, pos + 1) else Failure(ExpectedIdent)
  }

  /** Any single token tree; only the end of the input refuses it. */
  function TokenTree(ts: seq<Token>, pos: nat): (r: PResult<Token>)
    ensures r.Success? <==> pos < |ts|
    ensures r.Success? ==> r.value == ts[pos] && r.next == pos + 1
    ensures r.Failure? ==> r.error == UnexpectedEnd
  {
    if pos < |ts| then Success(ts[pos], pos + 1) else Failure(UnexpectedEnd)
  }

  /** Opening a brace group: its contents, to be parsed as a separate cursor. */
  function Braced(ts: seq<Token>, pos: nat): (r: PResult<seq<Token>>)
    ensures r.Success? <==> IsBrace(ts, pos)
    ensures r.Success? ==> r.value == ts[pos].inner && r.next == pos + 1
    ensures r.Failure? ==> r.error == ExpectedBraces
  {
    if IsBrace(ts, pos) then Success(ts[pos].inner, pos + 1) else Failure(ExpectedBraces)
  }

  /** A group's contents must be used up once its last field is parsed. */
  function Finished<T>(inner: seq<Token>, r: PResult<T>): (f: PResult<T>)
    ensures f.Success? <==> r.Success? && r.next == |inner|
    ensures f.Success? ==> f == r
    ensures r.Failure? ==> f == r
    ensures r.Success? && r.next != |inner| ==> f == Failure(UnexpectedToken)
  {
    if r.Success? && r.next != |inner| then Failure(UnexpectedToken) else r
  }
}
