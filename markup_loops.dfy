/**
 * The two loops over children in the form the source writes them: a
 * fragment's children, pushed until `</>` is next, and an element's
 * children, pushed until the input ends or the awaited closing tag is next.
 * Each is proved to compute exactly what the recursive definition does.
 */
module MarkupLoops {
  import opened Tokens
  import opened Collaborators
  import opened Combinators
  import opened MarkupLeaves
  import opened Markup

  /** `<>`, the children loop, `</>`. */
  method ParseFragmentLoop(g: Grammar, ts: seq<Token>, pos: nat, fuel: nat) returns (r: PResult<seq<Child>>)
    ensures r == ParseFragment(g, ts, pos, fuel)
  {
    var o := ExpectPuncts(ts, pos, ['<', '>']);
    if o.Failure? {
      return Failure(o.error);
    }
    var children := ParseUntilLoop(FragmentCloserAt(ts), ChildAt(g, ts, fuel), o.next, fuel);
    if children.Failure? {
      return Failure(children.error);
    }
    var c := ExpectPuncts(ts, children.next, ['<', '/', '>']);
    if c.Failure? {
      return Failure(c.error);
    }
    return Success(children.value, c.next);
  }

  /**
   * The opening tag, then one round per child: the end of the input is an
   * error naming the element; a closing tag is read on a fork, and ends the
   * loop when its name agrees with the opening name; anything else is the
   * next child. The closing tag is read last.
   */
  method ParseClosedLoop(g: Grammar, ts: seq<Token>, pos: nat, fuel: nat) returns (r: PResult<Element>)
    ensures r == ParseClosed(g, ts, pos, fuel)
  {
    var o := ParseOpening(ts, pos);
    if o.Failure? {
      return Failure(o.error);
    }
    var name := o.value.0;
    var stop, item := CloseStopAt(ts, name), ChildAt(g, ts, fuel);
    var children: seq<Child> := [];
    var p: nat, f: nat := o.next, fuel;
    PrependNil(ParseUntil(stop, item, p, f));
    while true
      invariant ParseUntil(stop, item, o.next, fuel) == Prepend(children, ParseUntil(stop, item, p, f))
      decreases f
    {
      if f == 0 {
        ClosedLoopFails(g, ts, pos, fuel);
        return Failure(OutOfFuel);
      }
      if p >= |ts| {
        break;
      }
      if CloserCandidate(ts, p) {
        var path := ParsePath(ts, p + 2);
        if path.Failure? || NamesMatch(path.value, name) {
          break;
        }
      }
      var c := ParseChild(g, ts, p, fuel);
      if c.Failure? {
        ClosedLoopFails(g, ts, pos, fuel);
        return Failure(c.error);
      }
      UntilStep(stop, item, p, f);
      PrependAppend(children, [c.value], ParseUntil(stop, item, c.next, f - 1));
      children, p, f := children + [c.value], c.next, f - 1;
    }
    assert children + [] == children;
    ClosedAfterLoop(g, ts, pos, fuel, children, p);
    if p >= |ts| {
      return Failure(Unclosed(name));
    }
    if ParsePath(ts, p + 2).Failure? {
      return Failure(ClosingPathPanic);
    }
    var closing := ParseClosing(ts, p);
    if closing.Failure? {
      return Failure(closing.error);
    }
    return Success(Closed(name, o.value.1, children, closing.value), closing.next);
  }

  /** Where the children loop stops, `ParseClosed` does what `CloseAfter` says. */
  lemma ClosedAfterLoop(g: Grammar, ts: seq<Token>, pos: nat, fuel: nat, children: seq<Child>, q: nat)
    requires ParseOpening(ts, pos).Success? && CloseStop(ts, ParseOpening(ts, pos).value.0, q)
    requires ParseUntil(CloseStopAt(ts, ParseOpening(ts, pos).value.0), ChildAt(g, ts, fuel), ParseOpening(ts, pos).next, fuel)
          == Success(children, q)
    ensures ParseClosed(g, ts, pos, fuel) == CloseAfter(g, ts, ParseOpening(ts, pos).value, children, q)
  {
  }

  /** When the children loop fails, `ParseClosed` fails with its error. */
  lemma ClosedLoopFails(g: Grammar, ts: seq<Token>, pos: nat, fuel: nat)
    requires ParseOpening(ts, pos).Success?
    requires ParseUntil(CloseStopAt(ts, ParseOpening(ts, pos).value.0), ChildAt(g, ts, fuel), ParseOpening(ts, pos).next, fuel).Failure?
    ensures ParseClosed(g, ts, pos, fuel)
         == Failure(ParseUntil(CloseStopAt(ts, ParseOpening(ts, pos).value.0), ChildAt(g, ts, fuel), ParseOpening(ts, pos).next, fuel).error)
  {
  }
}
