/**
 * The two loop combinators the block grammar is built from, stated once and
 * instantiated for every loop of the same shape:
 *
 *  - `ParseUntil(stop, item)`: parse one item after another for as long as
 *    `stop` is false at the current position;
 *  - `ParseDividedUntil(stop, divPeek, div, child)`: while `stop` is false,
 *    parse one divider and then the children after it, which run until the
 *    next divider or `stop`.
 *
 * Both take their cursor as a position, the item parsers as closures over
 * the token sequence, and a `fuel` bound on the number of rounds: the source
 * loops are unbounded, and an item that consumes nothing makes them spin
 * (`NoProgressSpins`), so running out of fuel is a result of its own.
 *
 * The functions are the specification; `ParseUntilLoop` and
 * `ParseDividedUntilLoop` are the same loops written imperatively and proved
 * equal to them. `IsRun` and `IsDividedRun` describe a successful parse
 * declaratively (which item was parsed at which position); the Sound and
 * Complete lemmas connect the two descriptions in both directions.
 */
module Combinators {
  import opened Tokens

  function ParseUntil<T>(stop: nat -> bool, item: nat -> PResult<T>, pos: nat, fuel: nat): (r: PResult<seq<T>>)
    decreases fuel
  {
    if fuel == 0 then Failure(OutOfFuel)
    else if stop(pos) then Success([], pos)
    else
      match item(pos)
      case Failure(e) => Failure(e)
      case Success(x, p) =>
        match ParseUntil(stop, item, p, fuel - 1)
        case Failure(e) => Failure(e)
        case Success(xs, q) => Success([x] + xs, q)
  }

  /** The stop test of a divider's children: the next divider, or the end of the whole construct. */
  function Or(a: nat -> bool, b: nat -> bool): (f: nat -> bool)
    ensures forall p :: f(p) == (a(p) || b(p))
  {
    (p: nat) => a(p) || b(p)
  }

  function ParseDividedUntil<D, C>(stop: nat -> bool, divPeek: nat -> bool, div: nat -> PResult<D>,
                                   child: nat -> PResult<C>, pos: nat, fuel: nat): (r: PResult<seq<(D, seq<C>)>>)
    decreases fuel
  {
    if fuel == 0 then Failure(OutOfFuel)
    else if stop(pos) then Success([], pos)
    else
      match div(pos)
      case Failure(e) => Failure(e)
      case Success(d, p) =>
        match ParseUntil(Or(divPeek, stop), child, p, fuel)
        case Failure(e) => Failure(e)
        case Success(cs, p') =>
          match ParseDividedUntil(stop, divPeek, div, child, p', fuel - 1)
          case Failure(e) => Failure(e)
          case Success(gs, q) => Success([(d, cs)] + gs, q)
  }

  // ----- the declarative description of a successful loop -----

  /**
   * `items[i]` was parsed at `ps[i]`, where `stop` was false, and ended at
   * `ps[i + 1]`.
   */
  ghost predicate IsRun<T>(stop: nat -> bool, item: nat -> PResult<T>, ps: seq<nat>, items: seq<T>) {
    |ps| == |items| + 1 &&
    forall i :: 0 <= i < |items| ==> !stop(ps[i]) && item(ps[i]) == Success(items[i], ps[i + 1])
  }

  /**
   * Group `i` of a divided run: its divider was parsed at `ds[i]`, where
   * `stop` was false; its children form a run `runs[i]` that starts where the
   * divider ended and stops where the next divider or `stop` holds, at
   * `ds[i + 1]`.
   */
  ghost predicate GroupAt<D, C>(stop: nat -> bool, divPeek: nat -> bool, div: nat -> PResult<D>,
                                child: nat -> PResult<C>, ds: seq<nat>, runs: seq<seq<nat>>,
                                groups: seq<(D, seq<C>)>, i: nat)
    requires i < |groups| && |ds| == |groups| + 1 && |runs| == |groups|
  {
    && !stop(ds[i])
    && IsRun(Or(divPeek, stop), child, runs[i], groups[i].1)
    && div(ds[i]) == Success(groups[i].0, runs[i][0])
    && runs[i][|groups[i].1|] == ds[i + 1]
    && (divPeek(ds[i + 1]) || stop(ds[i + 1]))
  }

  /** Every group is parsed as `GroupAt` says, and `stop` holds at the last position. */
  ghost predicate IsDividedRun<D, C>(stop: nat -> bool, divPeek: nat -> bool, div: nat -> PResult<D>,
                                     child: nat -> PResult<C>, ds: seq<nat>, runs: seq<seq<nat>>,
                                     groups: seq<(D, seq<C>)>) {
    |ds| == |groups| + 1 && |runs| == |groups| &&
    stop(ds[|groups|]) &&
    forall i: nat :: i < |groups| ==> GroupAt(stop, divPeek, div, child, ds, runs, groups, i)
  }

  lemma RunCons<T>(stop: nat -> bool, item: nat -> PResult<T>, p: nat, x: T, ps: seq<nat>, items: seq<T>)
    requires IsRun(stop, item, ps, items)
    requires !stop(p) && item(p) == Success(x, ps[0])
    ensures IsRun(stop, item, [p] + ps, [x] + items)
  {
    var ps', items' := [p] + ps, [x] + items;
    forall i | 0 <= i < |items'|
      ensures !stop(ps'[i]) && item(ps'[i]) == Success(items'[i], ps'[i + 1])
    {
      if i > 0 {
        assert ps'[i] == ps[i - 1] && ps'[i + 1] == ps[i] && items'[i] == items[i - 1];
      }
    }
  }

  lemma RunTail<T>(stop: nat -> bool, item: nat -> PResult<T>, ps: seq<nat>, items: seq<T>)
    requires IsRun(stop, item, ps, items) && items != []
    ensures IsRun(stop, item, ps[1..], items[1..])
  {
    forall i | 0 <= i < |items[1..]|
      ensures !stop(ps[1..][i]) && item(ps[1..][i]) == Success(items[1..][i], ps[1..][i + 1])
    {
      assert ps[1..][i] == ps[i + 1] && ps[1..][i + 1] == ps[i + 2];
    }
  }

  lemma DividedRunCons<D, C>(stop: nat -> bool, divPeek: nat -> bool, div: nat -> PResult<D>,
                             child: nat -> PResult<C>, p: nat, run: seq<nat>, g: (D, seq<C>),
                             ds: seq<nat>, runs: seq<seq<nat>>, groups: seq<(D, seq<C>)>)
    requires IsDividedRun(stop, divPeek, div, child, ds, runs, groups)
    requires !stop(p) && IsRun(Or(divPeek, stop), child, run, g.1)
    requires div(p) == Success(g.0, run[0]) && run[|g.1|] == ds[0] && (divPeek(ds[0]) || stop(ds[0]))
    ensures IsDividedRun(stop, divPeek, div, child, [p] + ds, [run] + runs, [g] + groups)
  {
    var ds', runs', groups' := [p] + ds, [run] + runs, [g] + groups;
    forall i: nat | i < |groups'| ensures GroupAt(stop, divPeek, div, child, ds', runs', groups', i) {
      if i > 0 {
        assert GroupAt(stop, divPeek, div, child, ds, runs, groups, i - 1);
        assert ds'[i] == ds[i - 1] && ds'[i + 1] == ds[i] && runs'[i] == runs[i - 1] && groups'[i] == groups[i - 1];
      }
    }
  }

  lemma DividedRunTail<D, C>(stop: nat -> bool, divPeek: nat -> bool, div: nat -> PResult<D>,
                             child: nat -> PResult<C>, ds: seq<nat>, runs: seq<seq<nat>>, groups: seq<(D, seq<C>)>)
    requires IsDividedRun(stop, divPeek, div, child, ds, runs, groups) && groups != []
    ensures IsDividedRun(stop, divPeek, div, child, ds[1..], runs[1..], groups[1..])
  {
    var ds', runs', groups' := ds[1..], runs[1..], groups[1..];
    forall i: nat | i < |groups'| ensures GroupAt(stop, divPeek, div, child, ds', runs', groups', i) {
      assert GroupAt(stop, divPeek, div, child, ds, runs, groups, i + 1);
      assert ds'[i] == ds[i + 1] && ds'[i + 1] == ds[i + 2] && runs'[i] == runs[i + 1] && groups'[i] == groups[i + 1];
    }
  }

  // ----- ParseUntil -----

  /** A successful loop is a run from where it started to a position where `stop` holds. */
  lemma {:induction false} UntilSound<T>(stop: nat -> bool, item: nat -> PResult<T>, pos: nat, fuel: nat)
    requires ParseUntil(stop, item, pos, fuel).Success?
    ensures var r := ParseUntil(stop, item, pos, fuel);
      stop(r.next) &&
      exists ps :: IsRun(stop, item, ps, r.value) && ps[0] == pos && ps[|r.value|] == r.next
    decreases fuel
  {
    var r := ParseUntil(stop, item, pos, fuel);
    if stop(pos) {
      assert IsRun(stop, item, [pos], r.value);
    } else {
      var x, p := item(pos).value, item(pos).next;
      UntilSound(stop, item, p, fuel - 1);
      var rest := ParseUntil(stop, item, p, fuel - 1);
      var ps :| IsRun(stop, item, ps, rest.value) && ps[0] == p && ps[|rest.value|] == rest.next;
      RunCons(stop, item, pos, x, ps, rest.value);
      assert ([pos] + ps)[|r.value|] == ps[|rest.value|];
    }
  }

  /** A run that ends where `stop` holds is exactly what the loop returns, given fuel for every item. */
  lemma {:induction false} UntilComplete<T>(stop: nat -> bool, item: nat -> PResult<T>, ps: seq<nat>, items: seq<T>, fuel: nat)
    requires IsRun(stop, item, ps, items) && stop(ps[|items|])
    requires fuel > |items|
    ensures ParseUntil(stop, item, ps[0], fuel) == Success(items, ps[|items|])
    decreases |items|
  {
    if items != [] {
      RunTail(stop, item, ps, items);
      UntilComplete(stop, item, ps[1..], items[1..], fuel - 1);
      assert [items[0]] + items[1..] == items;
    }
  }

  /** A failing loop returns, unchanged, the error of an item parsed where `stop` was false. */
  lemma {:induction false} UntilError<T>(stop: nat -> bool, item: nat -> PResult<T>, pos: nat, fuel: nat)
    requires ParseUntil(stop, item, pos, fuel).Failure?
    ensures var e := ParseUntil(stop, item, pos, fuel).error;
      e == OutOfFuel ||
      exists ps, items :: IsRun(stop, item, ps, items) && ps[0] == pos &&
        !stop(ps[|items|]) && item(ps[|items|]) == Failure(e)
    decreases fuel
  {
    var e := ParseUntil(stop, item, pos, fuel).error;
    if fuel > 0 && !stop(pos) {
      if item(pos).Failure? {
        assert IsRun(stop, item, [pos], []);
      } else {
        var x, p := item(pos).value, item(pos).next;
        var rest := ParseUntil(stop, item, p, fuel - 1);
        assert rest.Failure? && rest.error == e;
        UntilError(stop, item, p, fuel - 1);
        if e != OutOfFuel {
          var ps, items :| IsRun(stop, item, ps, items) && ps[0] == p &&
            !stop(ps[|items|]) && item(ps[|items|]) == Failure(e);
          RunCons(stop, item, pos, x, ps, items);
          var ps', items' := [pos] + ps, [x] + items;
          assert ps'[|items'|] == ps[|items|];
          assert IsRun(stop, item, ps', items') && ps'[0] == pos &&
            !stop(ps'[|items'|]) && item(ps'[|items'|]) == Failure(e);
        }
      }
    }
  }

  /**
   * When every item that succeeds between `pos` and `bound` moves forward
   * without passing `bound`, and none of them runs out of fuel, the loop
   * given more than `bound - pos` rounds never runs out of fuel, and a
   * successful loop ends between `pos` and `bound`.
   */
  lemma {:induction false} UntilProgress<T>(stop: nat -> bool, item: nat -> PResult<T>, pos: nat, fuel: nat, bound: nat)
    requires forall p: nat :: pos <= p <= bound && item(p).Success? ==> p < item(p).next <= bound
    requires forall p: nat :: pos <= p <= bound && item(p).Failure? ==> item(p).error != OutOfFuel
    requires pos <= bound && fuel > bound - pos
    ensures ParseUntil(stop, item, pos, fuel).Failure? ==> ParseUntil(stop, item, pos, fuel).error != OutOfFuel
    ensures ParseUntil(stop, item, pos, fuel).Success? ==> pos <= ParseUntil(stop, item, pos, fuel).next <= bound
    decreases fuel
  {
    if !stop(pos) && item(pos).Success? {
      UntilProgress(stop, item, item(pos).next, fuel - 1, bound);
    }
  }

  /** An item that succeeds without consuming anything makes the loop spin until its fuel is gone. */
  lemma {:induction false} NoProgressSpins<T>(stop: nat -> bool, item: nat -> PResult<T>, pos: nat, fuel: nat)
    requires !stop(pos) && item(pos).Success? && item(pos).next == pos
    ensures ParseUntil(stop, item, pos, fuel) == Failure(OutOfFuel)
    decreases fuel
  {
    if fuel > 0 {
      NoProgressSpins(stop, item, pos, fuel - 1);
    }
  }

  // ----- ParseDividedUntil -----

  /**
   * The same for the divided loop: when dividers and children between `pos`
   * and `bound` move forward without passing `bound` and never run out of
   * fuel, more than `bound - pos` rounds are enough.
   */
  lemma {:induction false} DividedProgress<D, C>(stop: nat -> bool, divPeek: nat -> bool, div: nat -> PResult<D>,
                                                 child: nat -> PResult<C>, pos: nat, fuel: nat, bound: nat)
    requires forall p: nat :: pos <= p <= bound && div(p).Success? ==> p < div(p).next <= bound
    requires forall p: nat :: pos <= p <= bound && div(p).Failure? ==> div(p).error != OutOfFuel
    requires forall p: nat :: pos <= p <= bound && child(p).Success? ==> p < child(p).next <= bound
    requires forall p: nat :: pos <= p <= bound && child(p).Failure? ==> child(p).error != OutOfFuel
    requires pos <= bound && fuel > bound - pos
    ensures var r := ParseDividedUntil(stop, divPeek, div, child, pos, fuel);
      (r.Failure? ==> r.error != OutOfFuel) && (r.Success? ==> pos <= r.next <= bound)
    decreases fuel
  {
    if !stop(pos) && div(pos).Success? {
      var p := div(pos).next;
      UntilProgress(Or(divPeek, stop), child, p, fuel, bound);
      var cs := ParseUntil(Or(divPeek, stop), child, p, fuel);
      if cs.Success? {
        DividedProgress(stop, divPeek, div, child, cs.next, fuel - 1, bound);
      }
    }
  }

  /** A successful divided loop is a divided run from where it started to where it stopped. */
  lemma {:induction false} DividedSound<D, C>(stop: nat -> bool, divPeek: nat -> bool, div: nat -> PResult<D>,
                                              child: nat -> PResult<C>, pos: nat, fuel: nat)
    requires ParseDividedUntil(stop, divPeek, div, child, pos, fuel).Success?
    ensures var r := ParseDividedUntil(stop, divPeek, div, child, pos, fuel);
      exists ds, runs :: IsDividedRun(stop, divPeek, div, child, ds, runs, r.value) &&
        ds[0] == pos && ds[|r.value|] == r.next
    decreases fuel
  {
    var r := ParseDividedUntil(stop, divPeek, div, child, pos, fuel);
    if stop(pos) {
      assert IsDividedRun(stop, divPeek, div, child, [pos], [], r.value);
    } else {
      var d, p := div(pos).value, div(pos).next;
      var until := ParseUntil(Or(divPeek, stop), child, p, fuel);
      UntilSound(Or(divPeek, stop), child, p, fuel);
      var ps :| IsRun(Or(divPeek, stop), child, ps, until.value) && ps[0] == p && ps[|until.value|] == until.next;
      DividedSound(stop, divPeek, div, child, until.next, fuel - 1);
      var rest := ParseDividedUntil(stop, divPeek, div, child, until.next, fuel - 1);
      var ds, runs :| IsDividedRun(stop, divPeek, div, child, ds, runs, rest.value) &&
        ds[0] == until.next && ds[|rest.value|] == rest.next;
      DividedRunCons(stop, divPeek, div, child, pos, ps, (d, until.value), ds, runs, rest.value);
      assert ([pos] + ds)[|r.value|] == ds[|rest.value|];
    }
  }

  /** A divided run that ends where `stop` holds is exactly what the loop returns, given enough fuel. */
  lemma {:induction false} DividedComplete<D, C>(stop: nat -> bool, divPeek: nat -> bool, div: nat -> PResult<D>,
                                                 child: nat -> PResult<C>, ds: seq<nat>, runs: seq<seq<nat>>,
                                                 groups: seq<(D, seq<C>)>, fuel: nat)
    requires IsDividedRun(stop, divPeek, div, child, ds, runs, groups)
    requires fuel > |groups|
    requires forall i :: 0 <= i < |groups| ==> fuel > i + |groups[i].1|
    ensures ParseDividedUntil(stop, divPeek, div, child, ds[0], fuel) == Success(groups, ds[|groups|])
    decreases |groups|
  {
    if groups != [] {
      assert GroupAt(stop, divPeek, div, child, ds, runs, groups, 0);
      UntilComplete(Or(divPeek, stop), child, runs[0], groups[0].1, fuel);
      DividedRunTail(stop, divPeek, div, child, ds, runs, groups);
      var groups' := groups[1..];
      forall i | 0 <= i < |groups'| ensures fuel - 1 > i + |groups'[i].1| {
        assert groups'[i] == groups[i + 1];
      }
      DividedComplete(stop, divPeek, div, child, ds[1..], runs[1..], groups', fuel - 1);
      assert [groups[0]] + groups' == groups;
    }
  }

  /**
   * A failing divided loop returns, unchanged, the error of a divider parsed
   * where `stop` was false or of a child parsed where neither a divider nor
   * `stop` held.
   */
  lemma {:induction false} DividedError<D, C>(stop: nat -> bool, divPeek: nat -> bool, div: nat -> PResult<D>,
                                              child: nat -> PResult<C>, pos: nat, fuel: nat)
    requires ParseDividedUntil(stop, divPeek, div, child, pos, fuel).Failure?
    ensures var e := ParseDividedUntil(stop, divPeek, div, child, pos, fuel).error;
      e == OutOfFuel ||
      (exists p: nat :: !stop(p) && div(p) == Failure(e)) ||
      (exists p: nat :: !divPeek(p) && !stop(p) && child(p) == Failure(e))
    decreases fuel
  {
    var e := ParseDividedUntil(stop, divPeek, div, child, pos, fuel).error;
    if fuel > 0 && !stop(pos) && div(pos).Success? {
      var p := div(pos).next;
      var until := ParseUntil(Or(divPeek, stop), child, p, fuel);
      if until.Failure? {
        UntilError(Or(divPeek, stop), child, p, fuel);
        if e != OutOfFuel {
          var ps, items :| IsRun(Or(divPeek, stop), child, ps, items) && ps[0] == p &&
            !Or(divPeek, stop)(ps[|items|]) && child(ps[|items|]) == Failure(e);
          var q := ps[|items|];
          assert !divPeek(q) && !stop(q) && child(q) == Failure(e);
        }
      } else {
        DividedError(stop, divPeek, div, child, until.next, fuel - 1);
      }
    }
  }

  // ----- the loops, written imperatively -----

  /** Prefixing already-parsed items to the outcome of the rest of a loop. */
  function Prepend<T>(xs: seq<T>, r: PResult<seq<T>>): (p: PResult<seq<T>>)
    ensures r.Failure? ==> p == r
    ensures r.Success? ==> p == Success(xs + r.value, r.next)
  {
    match r
    case Failure(e) => Failure(e)
    case Success(ys, q) => Success(xs + ys, q)
  }

  lemma PrependNil<T>(r: PResult<seq<T>>)
    ensures Prepend([], r) == r
  {
    if r.Success? {
      assert [] + r.value == r.value;
    }
  }

  lemma PrependAppend<T>(xs: seq<T>, ys: seq<T>, r: PResult<seq<T>>)
    ensures Prepend(xs, Prepend(ys, r)) == Prepend(xs + ys, r)
  {
    if r.Success? {
      assert xs + (ys + r.value) == (xs + ys) + r.value;
    }
  }

  /** One round of the loop: the item parsed here, then the rest. */
  lemma UntilStep<T>(stop: nat -> bool, item: nat -> PResult<T>, pos: nat, fuel: nat)
    requires fuel > 0 && !stop(pos) && item(pos).Success?
    ensures ParseUntil(stop, item, pos, fuel)
         == Prepend([item(pos).value], ParseUntil(stop, item, item(pos).next, fuel - 1))
  {
  }

  /** Where the loop ends on its own: at a stop, or at an item's error. */
  lemma UntilHalts<T>(stop: nat -> bool, item: nat -> PResult<T>, pos: nat, fuel: nat)
    requires fuel > 0 && (stop(pos) || item(pos).Failure?)
    ensures stop(pos) ==> ParseUntil(stop, item, pos, fuel) == Success([], pos)
    ensures !stop(pos) ==> ParseUntil(stop, item, pos, fuel) == Failure(item(pos).error)
  {
  }

  /** A single item between two stops is a run of one. */
  lemma UntilOne<T>(stop: nat -> bool, item: nat -> PResult<T>, pos: nat, fuel: nat)
    requires fuel > 1 && !stop(pos) && item(pos).Success? && stop(item(pos).next)
    ensures ParseUntil(stop, item, pos, fuel) == Success([item(pos).value], item(pos).next)
  {
    UntilStep(stop, item, pos, fuel);
    assert [item(pos).value] + [] == [item(pos).value];
  }

  method ParseUntilLoop<T>(stop: nat -> bool, item: nat -> PResult<T>, pos: nat, fuel: nat) returns (r: PResult<seq<T>>)
    ensures r == ParseUntil(stop, item, pos, fuel)
  {
    var parsed: seq<T> := [];
    var p, f := pos, fuel;
    PrependNil(ParseUntil(stop, item, pos, fuel));
    while f > 0 && !stop(p)
      invariant ParseUntil(stop, item, pos, fuel) == Prepend(parsed, ParseUntil(stop, item, p, f))
      decreases f
    {
      var x := item(p);
      if x.Failure? {
        return Failure(x.error);
      }
      UntilStep(stop, item, p, f);
      PrependAppend(parsed, [x.value], ParseUntil(stop, item, x.next, f - 1));
      parsed, p, f := parsed + [x.value], x.next, f - 1;
    }
    if f == 0 {
      return Failure(OutOfFuel);
    }
    assert parsed + [] == parsed;
    return Success(parsed, p);
  }

  /** One round of the divided loop: a divider and its children, then the rest. */
  lemma DividedStep<D, C>(stop: nat -> bool, divPeek: nat -> bool, div: nat -> PResult<D>,
                          child: nat -> PResult<C>, pos: nat, fuel: nat)
    requires fuel > 0 && !stop(pos) && div(pos).Success?
    requires ParseUntil(Or(divPeek, stop), child, div(pos).next, fuel).Success?
    ensures var cs := ParseUntil(Or(divPeek, stop), child, div(pos).next, fuel);
      ParseDividedUntil(stop, divPeek, div, child, pos, fuel)
        == Prepend([(div(pos).value, cs.value)], ParseDividedUntil(stop, divPeek, div, child, cs.next, fuel - 1))
  {
  }

  method ParseDividedUntilLoop<D, C>(stop: nat -> bool, divPeek: nat -> bool, div: nat -> PResult<D>,
                                     child: nat -> PResult<C>, pos: nat, fuel: nat) returns (r: PResult<seq<(D, seq<C>)>>)
    ensures r == ParseDividedUntil(stop, divPeek, div, child, pos, fuel)
  {
    var parsed: seq<(D, seq<C>)> := [];
    var p, f := pos, fuel;
    PrependNil(ParseDividedUntil(stop, divPeek, div, child, pos, fuel));
    while f > 0 && !stop(p)
      invariant ParseDividedUntil(stop, divPeek, div, child, pos, fuel)
             == Prepend(parsed, ParseDividedUntil(stop, divPeek, div, child, p, f))
      decreases f
    {
      var d := div(p);
      if d.Failure? {
        return Failure(d.error);
      }
      var children := ParseUntilLoop(Or(divPeek, stop), child, d.next, f);
      if children.Failure? {
        return Failure(children.error);
      }
      var group := (d.value, children.value);
      DividedStep(stop, divPeek, div, child, p, f);
      PrependAppend(parsed, [group], ParseDividedUntil(stop, divPeek, div, child, children.next, f - 1));
      parsed, p, f := parsed + [group], children.next, f - 1;
    }
    if f == 0 {
      return Failure(OutOfFuel);
    }
    assert parsed + [] == parsed;
    return Success(parsed, p);
  }
}
