/**
  `impl::swap` and `generic_construct` of `variant.hpp`, with moves that may throw.

  A throwing move is taken to leave its source and, if it is an assignment, its target as
  they were.
  */
module VariantSwap {
  datatype Content<T> = Live(value: T) | MovedFrom

  /** What a variant holds. */
  datatype Slot<T> = Valueless | Holds(index: nat, content: Content<T>)

  /** Whether the move constructor and the move assignment of a type cannot throw. */
  datatype Moves = Moves(construct: bool, assign: bool)

  /** That of each alternative. */
  type Nothrow = seq<Moves>

  predicate Fits<T>(nothrow: Nothrow, s: Slot<T>) {
    s.Holds? ==> s.index < |nothrow|
  }

  predicate MoveNothrow<T>(nothrow: Nothrow, s: Slot<T>)
    requires Fits(nothrow, s)
  {
    s.Valueless? || nothrow[s.index].construct
  }

  /** Which of the moves throw if they can: into the temporary, into the first variant
      written, into the second. */
  datatype Fate = Fate(first: bool, second: bool, third: bool)

  datatype Outcome<T> = Outcome(a: Slot<T>, b: Slot<T>, threw: bool)

  // ---------- the effect of swap ----------

  predicate Throws<T>(nothrow: Nothrow, s: Slot<T>, fate: bool)
    requires Fits(nothrow, s)
  {
    fate && !MoveNothrow(nothrow, s)
  }

  function Emptied<T>(s: Slot<T>): Slot<T> {
    if s.Valueless? then s else Holds(s.index, MovedFrom)
  }

  /** Assigning to an alternative of the same type throws. */
  predicate AssignThrows<T>(nothrow: Nothrow, s: Slot<T>, fate: bool)
    requires Fits(nothrow, s) && s.Holds?
  {
    fate && !nothrow[s.index].assign
  }

  /** Two alternatives of one type, by `std::swap`: constructs once and assigns twice. */
  function SwapAlike<T>(nothrow: Nothrow, a: Slot<T>, b: Slot<T>, fate: Fate): Outcome<T>
    requires Fits(nothrow, a) && Fits(nothrow, b) && a.Holds? && b.Holds?
  {
    if Throws(nothrow, a, fate.first) then Outcome(a, b, true)
    else if AssignThrows(nothrow, b, fate.second) then Outcome(Emptied(a), b, true)
    else if AssignThrows(nothrow, a, fate.third) then Outcome(b, Emptied(b), true)
    else Outcome(b, a, false)
  }

  /** A variant swapped with itself: it is assigned from its own moved-from content between. */
  function SwappedSelf<T>(nothrow: Nothrow, a: Slot<T>, fate: Fate): Outcome<T>
    requires Fits(nothrow, a)
  {
    if a.Valueless? then Outcome(a, a, false)
    else if Throws(nothrow, a, fate.first) then Outcome(a, a, true)
    else if AssignThrows(nothrow, a, fate.second) || AssignThrows(nothrow, a, fate.third) then
      Outcome(Emptied(a), Emptied(a), true)
    else Outcome(a, a, false)
  }

  /** Different alternatives: `r` goes to a temporary, `l` to `r`, the temporary to `l`. */
  function SwapThrough<T>(nothrow: Nothrow, l: Slot<T>, r: Slot<T>, fate: Fate): Outcome<T>
    requires Fits(nothrow, l) && Fits(nothrow, r)
  {
    if Throws(nothrow, r, fate.first) then Outcome(l, r, true)
    else if Throws(nothrow, l, fate.second) then
      Outcome(l, if MoveNothrow(nothrow, r) then r else Valueless, true)
    else if Throws(nothrow, r, fate.third) then Outcome(Valueless, l, true)
    else Outcome(r, l, false)
  }

  function Flip<T>(o: Outcome<T>): Outcome<T> {
    Outcome(o.b, o.a, o.threw)
  }

  function Swapped<T>(nothrow: Nothrow, a: Slot<T>, b: Slot<T>, fate: Fate): Outcome<T>
    requires Fits(nothrow, a) && Fits(nothrow, b)
  {
    if a.Valueless? && b.Valueless? then Outcome(a, b, false)
    else if SameAlternative(a, b) then SwapAlike(nothrow, a, b, fate)
    else if MoveNothrow(nothrow, a) && !MoveNothrow(nothrow, b) then Flip(SwapThrough(nothrow, b, a, fate))
    else SwapThrough(nothrow, a, b, fate)
  }

  /** All or nothing: the states are exchanged, or it threw and they are as before. */
  ghost predicate AllOrNothing<T>(a: Slot<T>, b: Slot<T>, o: Outcome<T>) {
    if o.threw then o.a == a && o.b == b else o.a == b && o.b == a
  }

  predicate IsLive<T>(s: Slot<T>) {
    s.Holds? ==> s.content.Live?
  }

  predicate SameAlternative<T>(a: Slot<T>, b: Slot<T>) {
    a.Holds? && b.Holds? && a.index == b.index
  }

  /** What decides: for one alternative its assignment, whatever its constructor does; for
      different ones whether some side is valueless or moves without throwing. */
  predicate MovesSafely<T>(nothrow: Nothrow, a: Slot<T>, b: Slot<T>)
    requires Fits(nothrow, a) && Fits(nothrow, b)
  {
    if SameAlternative(a, b) then nothrow[a.index].assign
    else MoveNothrow(nothrow, a) || MoveNothrow(nothrow, b)
  }

  /** Whatever throws, swap is all or nothing; and only under that condition: otherwise some
      throwing move loses a value. */
  lemma SwapIsAllOrNothingIff<T>(nothrow: Nothrow, a: Slot<T>, b: Slot<T>)
    requires Fits(nothrow, a) && Fits(nothrow, b) && IsLive(a) && IsLive(b)
    ensures (forall fate :: AllOrNothing(a, b, Swapped(nothrow, a, b, fate))) <==> MovesSafely(nothrow, a, b)
  {
    if !MovesSafely(nothrow, a, b) {
      var fate := Fate(false, true, false);
      assert !AllOrNothing(a, b, Swapped(nothrow, a, b, fate));
    }
  }

  /** A variant swapped with itself keeps its value, whatever throws, on the same condition. */
  lemma SelfSwapKeepsIff<T>(nothrow: Nothrow, a: Slot<T>)
    requires Fits(nothrow, a) && IsLive(a)
    ensures (forall fate :: SwappedSelf(nothrow, a, fate).a == a) <==> MovesSafely(nothrow, a, a)
  {
    if !MovesSafely(nothrow, a, a) {
      var fate := Fate(false, true, false);
      assert SwappedSelf(nothrow, a, fate).a != a;
    }
  }

  /** A swap that does not throw exchanges the states, always. */
  lemma QuietSwapExchanges<T>(nothrow: Nothrow, a: Slot<T>, b: Slot<T>, fate: Fate)
    requires Fits(nothrow, a) && Fits(nothrow, b)
    ensures var o := Swapped(nothrow, a, b, fate);
            !o.threw ==> o.a == b && o.b == a
  {
  }

  /** Swap throws exactly as follows. One alternative: its construction is the first move, its
      assignments are the second and third. Different ones: if both can throw, `b` is moved
      first and last and `a` between; if one can, it is moved in between. */
  lemma SwapThrowsIff<T>(nothrow: Nothrow, a: Slot<T>, b: Slot<T>, fate: Fate)
    requires Fits(nothrow, a) && Fits(nothrow, b)
    ensures var canA, canB := a.Holds? && !nothrow[a.index].construct, b.Holds? && !nothrow[b.index].construct;
            Swapped(nothrow, a, b, fate).threw <==>
            if a.Holds? && b.Holds? && a.index == b.index then
              (canA && fate.first) || (!nothrow[a.index].assign && (fate.second || fate.third))
            else if canA && canB then fate.first || fate.second || fate.third
            else (canA || canB) && fate.second
  {
  }

  /** So a swap in which no move throws, or none can, exchanges the states. */
  lemma QuietMovesExchange<T>(nothrow: Nothrow, a: Slot<T>, b: Slot<T>, fate: Fate)
    requires Fits(nothrow, a) && Fits(nothrow, b)
    requires || fate == Fate(false, false, false)
             || ((a.Holds? ==> nothrow[a.index] == Moves(true, true)) && (b.Holds? ==> nothrow[b.index] == Moves(true, true)))
    ensures Swapped(nothrow, a, b, fate) == Outcome(b, a, false)
  {
    SwapThrowsIff(nothrow, a, b, fate);
    QuietSwapExchanges(nothrow, a, b, fate);
  }

  lemma SelfSwapThrowsIff<T>(nothrow: Nothrow, a: Slot<T>, fate: Fate)
    requires Fits(nothrow, a)
    ensures SwappedSelf(nothrow, a, fate).threw <==>
            a.Holds? && ((!nothrow[a.index].construct && fate.first) || (!nothrow[a.index].assign && (fate.second || fate.third)))
    ensures SwappedSelf(nothrow, a, fate).a == SwappedSelf(nothrow, a, fate).b
    ensures IsLive(a) ==> SwappedSelf(nothrow, a, fate).a == if Loses(nothrow, a, a, fate) then Emptied(a) else a
  {
  }

  /** The value of a variant, if it has one. */
  function Values<T>(s: Slot<T>): multiset<T> {
    if s.Holds? && s.content.Live? then multiset{s.content.value} else multiset{}
  }

  /** A value is lost exactly if a move behind the first throws that cannot be undone; it is
      that of `a` for one alternative, and for different ones that of `b`. */
  predicate Loses<T>(nothrow: Nothrow, a: Slot<T>, b: Slot<T>, fate: Fate)
    requires Fits(nothrow, a) && Fits(nothrow, b)
  {
    if a.Holds? && b.Holds? && a.index == b.index then
      !nothrow[a.index].assign && (nothrow[a.index].construct || !fate.first) && (fate.second || fate.third)
    else
      && a.Holds? && !nothrow[a.index].construct && b.Holds? && !nothrow[b.index].construct
      && !fate.first && (fate.second || fate.third)
  }

  /** For each pattern of throwing moves: nothing is lost and swap is all or nothing, or one
      value is lost and the other still there. */
  lemma SwapLosesIff<T>(nothrow: Nothrow, a: Slot<T>, b: Slot<T>, fate: Fate)
    requires Fits(nothrow, a) && Fits(nothrow, b) && IsLive(a) && IsLive(b)
    ensures var o := Swapped(nothrow, a, b, fate);
            if Loses(nothrow, a, b, fate) then
              o.threw && Values(o.a) + Values(o.b) == if SameAlternative(a, b) then Values(b) else Values(a)
            else AllOrNothing(a, b, o)
  {
  }

  /** Where it stays: with the second move thrown nothing has changed places. */
  lemma RemainingValueStands<T>(nothrow: Nothrow, a: Slot<T>, b: Slot<T>, fate: Fate)
    requires Fits(nothrow, a) && Fits(nothrow, b) && IsLive(a) && IsLive(b) && Loses(nothrow, a, b, fate)
    ensures var o := Swapped(nothrow, a, b, fate);
            if SameAlternative(a, b) then
              (if fate.second then o.b == b else o.a == b) && o.a.Holds? && o.b.Holds?
            else if fate.second then o.a == a && o.b.Valueless? else o.b == a && o.a.Valueless?
  {
  }

  // ---------- the code ----------

  class Variant<T> {
    const nothrow: Nothrow
    var index: int
    var data: Content<T>

    ghost predicate Valid()
      reads this
    {
      -1 <= index < |nothrow|
    }

    function State(): Slot<T>
      requires Valid()
      reads this
    {
      if index == -1 then Valueless else Holds(index, data)
    }

    constructor (nothrow: Nothrow)
      ensures Valid() && this.nothrow == nothrow && State() == Valueless
    {
      this.nothrow := nothrow;
      this.index := -1;
      this.data := MovedFrom;
    }

    /** `generic_construct(*this, move(rhs))`: destroys, then moves; a throwing move leaves
        this variant valueless. */
    method GenericConstruct(rhs: Variant<T>, fate: bool) returns (threw: bool)
      requires Valid() && rhs.Valid() && rhs != this && rhs.nothrow == nothrow
      modifies this, rhs`data
      ensures Valid() && rhs.Valid()
      ensures threw == Throws(nothrow, old(rhs.State()), fate)
      ensures threw ==> State() == Valueless && rhs.State() == old(rhs.State())
      ensures !threw ==> State() == old(rhs.State()) && rhs.State() == Emptied(old(rhs.State()))
    {
      index := -1;
      threw := false;
      if rhs.index != -1 {
        if fate && !nothrow[rhs.index].construct {
          return true;
        }
        data := rhs.data;
        rhs.data := MovedFrom;
        index := rhs.index;
      }
    }

    method Swap(that: Variant<T>, fate: Fate) returns (threw: bool)
      requires Valid() && that.Valid() && that.nothrow == nothrow
      modifies this, that
      ensures Valid() && that.Valid()
      ensures Outcome(State(), that.State(), threw) ==
              if that == this then SwappedSelf(nothrow, old(State()), fate)
              else Swapped(nothrow, old(State()), old(that.State()), fate)
    {
      if index == -1 && that.index == -1 {
        threw := false;
      } else if index == that.index {
        threw := SwapContents(that, fate);
      } else if (index == -1 || nothrow[index].construct) && !(that.index == -1 || nothrow[that.index].construct) {
        threw := MoveThrough(that, this, fate);
      } else {
        threw := MoveThrough(this, that, fate);
      }
    }

    /** `std::swap` on the two alternatives. */
    method SwapContents(that: Variant<T>, fate: Fate) returns (threw: bool)
      requires Valid() && that.Valid() && that.nothrow == nothrow
      requires index == that.index && index != -1
      modifies this`data, that`data
      ensures Outcome(State(), that.State(), threw) ==
              if that == this then SwappedSelf(nothrow, old(State()), fate)
              else SwapAlike(nothrow, old(State()), old(that.State()), fate)
    {
      if fate.first && !nothrow[index].construct {
        return true;
      }
      var tmp := data;
      data := MovedFrom;
      if fate.second && !nothrow[index].assign {
        return true;
      }
      data := that.data;
      that.data := MovedFrom;
      if fate.third && !nothrow[index].assign {
        return true;
      }
      that.data := tmp;
      threw := false;
    }

    /** The exception-aware exchange; `rhs` is the side that moves without throwing if
        there is one. */
    static method MoveThrough(lhs: Variant<T>, rhs: Variant<T>, fate: Fate) returns (threw: bool)
      requires lhs.Valid() && rhs.Valid() && lhs != rhs && lhs.nothrow == rhs.nothrow
      modifies lhs, rhs
      ensures lhs.Valid() && rhs.Valid()
      ensures Outcome(lhs.State(), rhs.State(), threw) ==
              SwapThrough(lhs.nothrow, old(lhs.State()), old(rhs.State()), fate)
    {
      var tmp := new Variant<T>(lhs.nothrow);
      threw := tmp.GenericConstruct(rhs, fate.first);
      if threw {
        return;
      }
      threw := rhs.GenericConstruct(lhs, fate.second);
      if threw {
        if tmp.index == -1 || tmp.nothrow[tmp.index].construct {
          var never := rhs.GenericConstruct(tmp, fate.third);
        }
        return;
      }
      threw := lhs.GenericConstruct(tmp, fate.third);
    }
  }
}
