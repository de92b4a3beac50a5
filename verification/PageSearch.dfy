/**
 Turning the pages of a screen until a row is on it: forward as far as it goes, then back.

 A pager refuses to turn past either end; any other refusal ends the search. Which turns are refused
 like that is given, turn by turn.
 */
module PageSearch {
  import opened Wrappers

  datatype Direction = Next | Previous

  datatype Turned = Pressed | Disabled | Refused

  class Pager {
    const has: seq<bool>
    const refuses: nat -> bool
    var at: nat
    var turns: nat

    ghost predicate Valid()
      reads this
    {
      at < |has|
    }

    constructor (has: seq<bool>, at: nat, refuses: nat -> bool)
      requires at < |has|
      ensures Valid() && this.has == has && this.at == at && this.refuses == refuses && turns == 0
    {
      this.has, this.at, this.refuses, turns := has, at, refuses, 0;
    }

    method Present() returns (here: bool)
      requires Valid()
      ensures here == has[at]
    {
      here := has[at];
    }

    method Turn(d: Direction) returns (answer: Turned)
      requires Valid()
      modifies this
      ensures Valid() && turns == old(turns) + 1
      ensures answer == if refuses(old(turns)) then Refused else if AtEnd(d, old(at), |has|) then Disabled else Pressed
      ensures at == if answer == Pressed then Beyond(d, old(at)) else old(at)
    {
      turns := turns + 1;
      if refuses(turns - 1) { return Refused; }
      if AtEnd(d, at, |has|) { return Disabled; }
      at := Beyond(d, at);
      return Pressed;
    }
  }

  predicate AtEnd(d: Direction, at: nat, pages: nat) {
    match d
    case Next => at + 1 >= pages
    case Previous => at == 0
  }

  function Beyond(d: Direction, at: nat): nat
    requires d == Previous ==> at > 0
  {
    if d == Next then at + 1 else at - 1
  }

  datatype Answer = Found | Missing | Stopped(direction: Direction)

  /** How far one direction goes from `at` with so many turns. */
  function Reach(d: Direction, at: nat, limit: nat, pages: nat): (r: nat)
    requires at < pages
    ensures r < pages
  {
    if d == Next then (if at + limit < pages then at + limit else pages - 1)
    else if at > limit then at - limit else 0
  }

  /** No page from `a` to `b` has the row, whichever of the two comes first. */
  predicate Lacks(has: seq<bool>, a: nat, b: nat) {
    forall p :: 0 <= p < |has| && (a <= p <= b || b <= p <= a) ==> !has[p]
  }

  predicate NoneRefused(refuses: nat -> bool, a: nat, b: nat) {
    forall n :: a <= n < b ==> !refuses(n)
  }

  /** Whether `b` is on the way from `a` in one direction. */
  predicate Onward(d: Direction, a: nat, b: nat) {
    if d == Next then a <= b else b <= a
  }

  /**
   One direction, from a page without the row. It ends where the row is, the first such page that way;
   or at a refused turn; or as far as the direction goes.
   */
  method Search(pager: Pager, d: Direction, limit: nat) returns (answer: Option<Answer>, turned: seq<Direction>)
    requires pager.Valid() && !pager.has[pager.at]
    modifies pager
    ensures pager.Valid() && old(pager.turns) <= pager.turns <= old(pager.turns) + limit
    ensures Onward(d, old(pager.at), pager.at) && Onward(d, pager.at, Reach(d, old(pager.at), limit, |pager.has|))
    ensures |turned| == (if d == Next then pager.at - old(pager.at) else old(pager.at) - pager.at)
            && forall t :: t in turned ==> t == d
    ensures answer == Some(Found) ==>
              && pager.has[pager.at] && pager.at != old(pager.at)
              && Lacks(pager.has, old(pager.at), if d == Next then pager.at - 1 else pager.at + 1)
    ensures answer == Some(Stopped(d)) ==>
              !NoneRefused(pager.refuses, old(pager.turns), pager.turns)
    ensures answer != Some(Found) ==> Lacks(pager.has, old(pager.at), pager.at)
    ensures answer == None ==> pager.at == Reach(d, old(pager.at), limit, |pager.has|)
    ensures answer in {None, Some(Found), Some(Stopped(d))}
  {
    turned := [];
    ghost var from, turns := pager.at, pager.turns;
    for n := 0 to limit
      invariant pager.Valid() && pager.turns == turns + n
      invariant pager.at == (if d == Next then from + n else from - n)
      invariant |turned| == n && forall t :: t in turned ==> t == d
      invariant Lacks(pager.has, from, pager.at)
    {
      var pressed := pager.Turn(d);
      if pressed == Disabled { break; }
      if pressed == Refused { return Some(Stopped(d)), turned; }
      turned := turned + [d];
      var here := pager.Present();
      if here { return Some(Found), turned; }
    }
    return None, turned;
  }

  /**
   The whole search: forward from page `k`, then back from the furthest page reached. Every page from
   `Reach` back of that to that is seen, and no turn more than twice the limit is made. When no turn is
   refused, the row is found exactly when one of those pages has it.
   */
  method PageThrough(pager: Pager, limit: nat) returns (answer: Answer, turned: seq<Direction>)
    requires pager.Valid()
    modifies pager
    ensures pager.Valid() && pager.turns <= old(pager.turns) + 2 * limit && |turned| <= 2 * limit
    ensures answer == Found ==> pager.has[pager.at]
    ensures var furthest := Reach(Next, old(pager.at), limit, |pager.has|);
            var lowest := Reach(Previous, furthest, limit, |pager.has|);
            && lowest <= old(pager.at) <= furthest
            && lowest <= pager.at <= furthest
            && (answer == Missing ==> Lacks(pager.has, lowest, furthest) && pager.at == lowest)
            && (NoneRefused(pager.refuses, old(pager.turns), pager.turns) ==>
                  (answer == Found <==> !Lacks(pager.has, lowest, furthest)))
            && (answer == Found && pager.at >= old(pager.at) ==> FirstOnward(pager.has, old(pager.at), pager.at))
            && (answer == Found && pager.at < old(pager.at) ==> Lacks(pager.has, pager.at + 1, furthest))
    ensures answer.Stopped? ==> !NoneRefused(pager.refuses, old(pager.turns), pager.turns)
  {
    ghost var from := pager.at;
    turned := [];
    var here := pager.Present();
    if here { return Found, turned; }
    var forward, ahead := Search(pager, Next, limit);
    turned := turned + ahead;
    if forward.Some? { return forward.value, turned; }
    ghost var furthest := pager.at;
    var back, behind := Search(pager, Previous, limit);
    turned := turned + behind;
    if back.Some? { return back.value, turned; }
    return Missing, turned;
  }

  /** The first page with the row at or after `from` is `at`. */
  predicate FirstOnward(has: seq<bool>, from: nat, at: nat) {
    at < |has| && has[at] && forall p :: 0 <= p < |has| && from <= p < at ==> !has[p]
  }
}
