/**
 * The parsers this grammar delegates to and does not define itself: the
 * host language's expression parser, its pattern parser and its path
 * parser. They are approximated here by small total functions with the
 * shape the grammar relies on:
 *
 *  - an expression is a non-empty run of token trees that begins with a
 *    token an expression may begin with, and ends before the first lone `:`
 *    (a `:` that is not half of a `::`) or at the end of the enclosing group;
 *  - a pattern is the same, except that it also ends before the keyword
 *    `if`, which no pattern holds;
 *  - a path is an identifier followed by any number of `::` identifier
 *    segments.
 */
module Collaborators {
  import opened Tokens

  /** Punctuation an expression or pattern may begin with. */
  const ExprStartPuncts: set<char> := {'-', '!', '*', '&', '|', '.', '<', '\'', ':'}

  /**
   * Whether an expression may begin at `i`: not at the end, and not with
   * punctuation other than the prefix operators, except `#` when it opens an
   * outer attribute `#[...]`.
   */
  predicate CanBeginExpr(ts: seq<Token>, i: nat) {
    i < |ts| &&
    (ts[i].Punct? ==>
      ts[i].ch in ExprStartPuncts || (ts[i].ch == '#' && IsGroup(ts, i + 1, Bracket)))
  }

  /** The index of the first lone `:` at or after `i`, or the end of `ts`. */
  function ExprEnd(ts: seq<Token>, i: nat): (e: nat)
    requires i <= |ts|
    ensures i <= e <= |ts|
    ensures e < |ts| ==> ts[e] == Punct(':') && !IsPunct(ts, e + 1, ':')
    decreases |ts| - i
  {
    if i == |ts| then i
    else if ts[i] == Punct(':') then
      if IsPunct(ts, i + 1, ':') then ExprEnd(ts, i + 2) else i
    else ExprEnd(ts, i + 1)
  }

  /** The expression collaborator: the tokens it consumed. */
  function ParseExpr(ts: seq<Token>, pos: nat): (r: PResult<seq<Token>>)
    ensures r.Success? ==> pos < r.next <= |ts| && r.value == ts[pos..r.next]
    ensures r.Success? ==> r.next == |ts| || IsPunct(ts, r.next, ':')
    ensures r.Failure? ==> r.error == ExpectedExpression
    ensures !CanBeginExpr(ts, pos) ==> r.Failure?
  {
    if CanBeginExpr(ts, pos) && ExprEnd(ts, pos) > pos then
      Success(ts[pos..ExprEnd(ts, pos)], ExprEnd(ts, pos))
    else
      Failure(ExpectedExpression)
  }

  /** A well-formed expression: one the collaborator reads back whole. */
  predicate WellFormedExpr(e: seq<Token>) {
    CanBeginExpr(e, 0) && ExprEnd(e, 0) == |e|
  }

  /**
   * Scanning an expression followed by a lone `:` (or by nothing) stops
   * exactly at the end of the expression.
   */
  lemma {:induction false} ExprEndAppend(e: seq<Token>, rest: seq<Token>, i: nat)
    requires i <= |e| && ExprEnd(e, i) == |e|
    requires rest == [] || (rest[0] == Punct(':') && !IsPunct(rest, 1, ':'))
    ensures ExprEnd(e + rest, i) == |e|
    decreases |e| - i
  {
    var ts := e + rest;
    if i == |e| {
    } else if e[i] == Punct(':') {
      if IsPunct(e, i + 1, ':') {
        assert ts[i + 1] == Punct(':');
        ExprEndAppend(e, rest, i + 2);
      } else {
        assert false;
      }
    } else {
      ExprEndAppend(e, rest, i + 1);
    }
  }

  /** A well-formed expression, embedded anywhere and followed by a lone `:` or the end, is read back whole. */
  lemma ParseExprEmbedded(ts: seq<Token>, pos: nat, e: seq<Token>)
    requires WellFormedExpr(e)
    requires pos + |e| <= |ts| && ts[pos..pos + |e|] == e
    requires pos + |e| == |ts| || (IsPunct(ts, pos + |e|, ':') && !IsPunct(ts, pos + |e| + 1, ':'))
    ensures ParseExpr(ts, pos) == Success(e, pos + |e|)
  {
    ExprEndShift(ts, pos, 0, e);
  }

  lemma {:induction false} ExprEndShift(ts: seq<Token>, pos: nat, i: nat, e: seq<Token>)
    requires i <= |e| && ExprEnd(e, i) == |e|
    requires pos + |e| <= |ts| && ts[pos..pos + |e|] == e
    requires pos + |e| == |ts| || (IsPunct(ts, pos + |e|, ':') && !IsPunct(ts, pos + |e| + 1, ':'))
    ensures ExprEnd(ts, pos + i) == pos + |e|
    decreases |e| - i
  {
    if i == |e| {
    } else {
      assert ts[pos + i] == e[i];
      if e[i] == Punct(':') {
        if IsPunct(e, i + 1, ':') {
          assert ts[pos + i + 1] == e[i + 1];
          ExprEndShift(ts, pos, i + 2, e);
        } else {
          assert false;
        }
      } else {
        ExprEndShift(ts, pos, i + 1, e);
      }
    }
  }

  /**
   * Whether a pattern ends at `i`: at the end of the group, at a lone `:`, or
   * at the keyword `if`.
   */
  predicate PatternStop(ts: seq<Token>, i: nat) {
    i == |ts| || (IsPunct(ts, i, ':') && !IsPunct(ts, i + 1, ':')) || IsWord(ts, i, "if")
  }

  /** The index of the first place at or after `i` where a pattern ends. */
  function PatternEnd(ts: seq<Token>, i: nat): (e: nat)
    requires i <= |ts|
    ensures i <= e <= |ts| && PatternStop(ts, e)
    ensures forall k :: i <= k < e ==> ts[k] != Ident("if")
    decreases |ts| - i
  {
    if i == |ts| || ts[i] == Ident("if") then i
    else if ts[i] == Punct(':') then
      if IsPunct(ts, i + 1, ':') then PatternEnd(ts, i + 2) else i
    else PatternEnd(ts, i + 1)
  }

  /** The pattern collaborator: the tokens it consumed, never holding `if`. */
  function ParsePattern(ts: seq<Token>, pos: nat): (r: PResult<seq<Token>>)
    ensures r.Success? ==> pos < r.next <= |ts| && r.value == ts[pos..r.next] && PatternStop(ts, r.next)
    ensures r.Success? ==> forall k :: 0 <= k < |r.value| ==> r.value[k] != Ident("if")
    ensures r.Failure? ==> r.error == ExpectedExpression
    ensures !CanBeginExpr(ts, pos) || IsWord(ts, pos, "if") ==> r.Failure?
  {
    if CanBeginExpr(ts, pos) && PatternEnd(ts, pos) > pos then
      Success(ts[pos..PatternEnd(ts, pos)], PatternEnd(ts, pos))
    else
      Failure(ExpectedExpression)
  }

  /** A well-formed pattern: one the collaborator reads back whole. */
  predicate WellFormedPattern(p: seq<Token>) {
    CanBeginExpr(p, 0) && PatternEnd(p, 0) == |p|
  }

  /** A well-formed pattern, embedded anywhere and followed by a place where patterns end, is read back whole. */
  lemma ParsePatternEmbedded(ts: seq<Token>, pos: nat, p: seq<Token>)
    requires WellFormedPattern(p)
    requires pos + |p| <= |ts| && ts[pos..pos + |p|] == p
    requires PatternStop(ts, pos + |p|)
    ensures ParsePattern(ts, pos) == Success(p, pos + |p|)
  {
    PatternEndShift(ts, pos, 0, p);
  }

  lemma {:induction false} PatternEndShift(ts: seq<Token>, pos: nat, i: nat, p: seq<Token>)
    requires i <= |p| && PatternEnd(p, i) == |p|
    requires pos + |p| <= |ts| && ts[pos..pos + |p|] == p
    requires PatternStop(ts, pos + |p|)
    ensures PatternEnd(ts, pos + i) == pos + |p|
    decreases |p| - i
  {
    if i == |p| {
    } else {
      assert ts[pos + i] == p[i];
      if p[i] == Ident("if") {
        assert false;
      } else if p[i] == Punct(':') {
        if IsPunct(p, i + 1, ':') {
          assert ts[pos + i + 1] == p[i + 1];
          PatternEndShift(ts, pos, i + 2, p);
        } else {
          assert false;
        }
      } else {
        PatternEndShift(ts, pos, i + 1, p);
      }
    }
  }

  /** The path collaborator: the identifiers of `a::b::c`, in order. */
  function ParsePath(ts: seq<Token>, pos: nat): (r: PResult<seq<string>>)
    ensures r.Success? ==> |r.value| >= 1 && pos < r.next <= |ts|
    ensures !IsIdent(ts, pos) ==> r == Failure(ExpectedIdent)
    ensures r.Failure? ==> r.error == ExpectedIdent
    ensures r.Success? ==> r.value[0] == ts[pos].name
  {
    if !IsIdent(ts, pos) then Failure(ExpectedIdent)
    else PathSegments(ts, pos + 1, [ts[pos].name])
  }

  /** The keywords a path takes as a segment after `::`. */
  const PathKeywords: set<string> := {"self", "super", "crate", "Self", "try"}

  predicate IsPathKeyword(ts: seq<Token>, i: nat) {
    i < |ts| && ts[i].Ident? && ts[i].name in PathKeywords
  }

  /**
   * Further `::` segments, each an identifier or a path keyword; a `::`
   * followed by a parenthesised group ends the path.
   */
  function PathSegments(ts: seq<Token>, pos: nat, segs: seq<string>): (r: PResult<seq<string>>)
    requires pos <= |ts|
    ensures r.Success? ==> |r.value| >= |segs| && r.value[..|segs|] == segs && pos <= r.next <= |ts|
    ensures r.Failure? ==> r.error == ExpectedIdent
    decreases |ts| - pos
  {
    if IsPunct(ts, pos, ':') && IsPunct(ts, pos + 1, ':') && !IsGroup(ts, pos + 2, Paren) then
      if IsIdent(ts, pos + 2) || IsPathKeyword(ts, pos + 2) then
        var r := PathSegments(ts, pos + 3, segs + [ts[pos + 2].name]);
        assert r.Success? ==> r.value[..|segs|] == r.value[..|segs| + 1][..|segs|];
        r
      else Failure(ExpectedIdent)
    else Success(segs, pos)
  }

  /** The tokens of a path. */
  function PrintPath(p: seq<string>): (ts: seq<Token>)
    requires |p| >= 1
    ensures |ts| == 3 * |p| - 2
    ensures ts[0] == Ident(p[0])
  {
    if |p| == 1 then [Ident(p[0])]
    else PrintPath(p[..|p| - 1]) + [Punct(':'), Punct(':'), Ident(p[|p| - 1])]
  }

  /** A path the parser can read: an identifier, then identifiers or path keywords. */
  predicate WellFormedPath(p: seq<string>) {
    |p| >= 1 && !IsKeyword(p[0]) &&
    forall k :: 1 <= k < |p| ==> !IsKeyword(p[k]) || p[k] in PathKeywords
  }

  /** Where each segment of a printed path and the `::` before it stand. */
  lemma {:induction false} PrintPathAt(p: seq<string>, k: nat)
    requires 0 <= k < |p|
    ensures 3 * k < |PrintPath(p)| && PrintPath(p)[3 * k] == Ident(p[k])
    ensures k >= 1 ==> PrintPath(p)[3 * k - 2] == Punct(':') && PrintPath(p)[3 * k - 1] == Punct(':')
    decreases |p|
  {
    if k < |p| - 1 {
      var q := p[..|p| - 1];
      PrintPathAt(q, k);
      assert q[k] == p[k];
      assert PrintPath(p)[..|PrintPath(q)|] == PrintPath(q);
    }
  }

  /** Reading the segments of a printed path from its `k`-th on gives back the whole path. */
  lemma {:induction false} PathSegmentsRead(ts: seq<Token>, p: seq<string>, k: nat)
    requires WellFormedPath(p) && 1 <= k <= |p|
    requires |PrintPath(p)| <= |ts| && ts[..|PrintPath(p)|] == PrintPath(p)
    requires !IsPunct(ts, |PrintPath(p)|, ':')
    ensures PathSegments(ts, 3 * k - 2, p[..k]) == Success(p, |PrintPath(p)|)
    decreases |p| - k
  {
    var n := |PrintPath(p)|;
    if k == |p| {
      assert p[..k] == p;
    } else {
      PrintPathAt(p, k);
      assert ts[3 * k - 2] == PrintPath(p)[3 * k - 2];
      assert ts[3 * k - 1] == PrintPath(p)[3 * k - 1];
      assert ts[3 * k] == PrintPath(p)[3 * k];
      assert IsIdent(ts, 3 * k) || IsPathKeyword(ts, 3 * k);
      assert p[..k] + [p[k]] == p[..k + 1];
      PathSegmentsRead(ts, p, k + 1);
    }
  }

  /** A printed path, followed by anything but `:`, is read back exactly. */
  lemma PathRoundTrip(p: seq<string>, rest: seq<Token>)
    requires WellFormedPath(p)
    requires !IsPunct(rest, 0, ':')
    ensures ParsePath(PrintPath(p) + rest, 0) == Success(p, |PrintPath(p)|)
  {
    var ts := PrintPath(p) + rest;
    assert ts[..|PrintPath(p)|] == PrintPath(p);
    assert ts[|PrintPath(p)|..] == rest;
    assert [p[0]] == p[..1];
    PathSegmentsRead(ts, p, 1);
  }
}
