/**
  The switch-based visitation of `variant.hpp`: a switch over 32 indices at a time that
  goes on to the next 32 in its default case and to the next variant in the others.
  */
module VariantVisit {
  /** The number of `case` labels in one switch. */
  const CASES: nat := 32

  /** The number of alternatives and the active index of a variant; the index of a variant
      without a value is larger than any number of alternatives. */
  datatype Visited = Visited(size: nat, index: nat)

  datatype Outcome = Called(alternatives: seq<nat>) | Unreachable

  predicate InRange(vs: seq<Visited>) {
    forall i :: 0 <= i < |vs| ==> vs[i].index < vs[i].size
  }

  function Indices(vs: seq<Visited>): (r: seq<nat>)
    ensures |r| == |vs| && forall i :: 0 <= i < |vs| ==> r[i] == vs[i].index
  {
    seq(|vs|, i requires 0 <= i < |vs| => vs[i].index)
  }

  // ---------- as coded ----------

  /** `dispatcher<enabled, ...>::dispatch<base>`; `done` are the indices fixed so far. */
  function Dispatch(enabled: bool, done: seq<nat>, vs: seq<Visited>, base: nat): Outcome
    decreases |vs|, if vs != [] && base < vs[0].size then vs[0].size - base else 0, enabled
  {
    if !enabled then Unreachable
    else if vs == [] then Called(done)
    else if base <= vs[0].index < base + CASES then
      Dispatch(vs[0].index < vs[0].size, done + [vs[0].index], vs[1..], 0)
    else Dispatch(base + CASES < vs[0].size, done, vs, base + CASES)
  }

  /** `dispatcher<enabled, R>::dispatch_at<base>` for variants of one size. */
  function DispatchAt(enabled: bool, index: nat, size: nat, base: nat): Outcome
    decreases if base < size then size - base else 0, enabled
  {
    if !enabled then Unreachable
    else if base <= index < base + CASES then if index < size then Called([index]) else Unreachable
    else DispatchAt(base + CASES < size, index, size, base + CASES)
  }

  // ---------- what is called ----------

  lemma {:induction false} DispatchFrom(done: seq<nat>, vs: seq<Visited>, base: nat)
    requires vs != [] ==> base <= vs[0].index
    ensures Dispatch(true, done, vs, base) == if InRange(vs) then Called(done + Indices(vs)) else Unreachable
    decreases |vs|, if vs != [] && base < vs[0].size then vs[0].size - base else 0
  {
    if vs == [] {
      assert done + Indices(vs) == done;
    } else if vs[0].index < base + CASES {
      if vs[0].index < vs[0].size {
        DispatchFrom(done + [vs[0].index], vs[1..], 0);
        assert done + [vs[0].index] + Indices(vs[1..]) == done + Indices(vs);
        assert InRange(vs) <==> InRange(vs[1..]) by {
          assert vs == [vs[0]] + vs[1..];
        }
      }
    } else if base + CASES < vs[0].size {
      DispatchFrom(done, vs, base + CASES);
    }
  }

  /** The visitor is called, on exactly the active alternatives in order, if and only if every
      variant's index is in range; the unreachable case is reached in no other way. */
  lemma VisitCallsActiveAlternatives(vs: seq<Visited>)
    ensures Dispatch(true, [], vs, 0) == if InRange(vs) then Called(Indices(vs)) else Unreachable
  {
    DispatchFrom([], vs, 0);
    assert [] + Indices(vs) == Indices(vs);
  }

  lemma {:induction false} DispatchAtFrom(index: nat, size: nat, base: nat)
    requires base <= index
    ensures DispatchAt(true, index, size, base) == if index < size then Called([index]) else Unreachable
    decreases if base < size then size - base else 0
  {
    if base + CASES <= index && base + CASES < size {
      DispatchAtFrom(index, size, base + CASES);
    }
  }
}
