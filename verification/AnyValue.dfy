/**
  The class `any` of `any.hpp`: a type table and a storage that is either a pointer to a heap
  object or the object itself. All `any` variables of a program and all objects they store
  are kept together, so that ownership can be stated over the whole program.
  */
module AnyValue {
  import opened Wrappers

  /** A stored type; whether it goes to the heap depends on its size and its move constructor. */
  datatype Type = Type(name: nat, onHeap: bool)

  /** A living object. */
  datatype Object = Object(ty: Type, value: int)

  /** A variable of the program, or one of the temporaries of `operator=` and `swap`. */
  datatype Name = Variable(number: nat) | AssignTemporary | SwapTemporary

  /** What an `any` stores: nothing, or an object of the type its table is for. */
  datatype Slot = Empty | Holding(ty: Type, id: nat)

  type Slots = map<Name, Slot>

  type Objects = map<nat, Object>

  // ---------- ownership ----------

  predicate Holds(slots: Slots, n: Name, o: nat) {
    n in slots && slots[n].Holding? && slots[n].id == o
  }

  /** The `any` named `n`, if it is not empty, holds a living object of its type. */
  predicate HoldsWell(slots: Slots, live: Objects, owner: map<nat, Name>, n: Name)
    requires n in slots
  {
    slots[n].Holding? ==>
      && slots[n].id in live
      && live[slots[n].id].ty == slots[n].ty
      && slots[n].id in owner
      && owner[slots[n].id] == n
  }

  /** The living object `o` is held by its owner. */
  predicate IsHeld(slots: Slots, owner: map<nat, Name>, o: nat) {
    o in owner && Holds(slots, owner[o], o)
  }

  /** Every `any` holds a living object of its type or nothing, and every living object is
      held; the owner makes the holding one to one. */
  predicate Owning(slots: Slots, live: Objects, owner: map<nat, Name>) {
    && (forall n {:trigger HoldsWell(slots, live, owner, n)} :: n in slots ==> HoldsWell(slots, live, owner, n))
    && (forall o {:trigger IsHeld(slots, owner, o)} :: o in live ==> IsHeld(slots, owner, o))
  }

  /** No two variables hold the same object, and no living object is held by none. */
  lemma EachObjectHasOneOwner(slots: Slots, live: Objects, owner: map<nat, Name>, o: nat)
    requires Owning(slots, live, owner)
    ensures o in live <==> exists n :: Holds(slots, n, o)
    ensures forall n, m :: Holds(slots, n, o) && Holds(slots, m, o) ==> n == m
  {
    if o in live {
      assert Holds(slots, owner[o], o) by {
        assert IsHeld(slots, owner, o);
      }
    }
    if n :| Holds(slots, n, o) {
      assert HoldsWell(slots, live, owner, n);
    }
    forall n, m | Holds(slots, n, o) && Holds(slots, m, o)
      ensures n == m
    {
      assert HoldsWell(slots, live, owner, n) && HoldsWell(slots, live, owner, m);
    }
  }

  /** Identities from `next` on were never used. */
  predicate Below(live: Objects, next: nat) {
    forall o {:trigger live[o]} :: o in live ==> o < next
  }

  // ---------- meaning ----------

  /** What a user sees: no value, or a value of some type. */
  datatype Meaning = Nothing | Value(ty: Type, value: int)

  function MeaningOf(slot: Slot, live: Objects): Meaning {
    if slot.Empty? || slot.id !in live then Nothing else Value(slot.ty, live[slot.id].value)
  }

  function Meanings(slots: Slots, live: Objects): map<Name, Meaning> {
    map n | n in slots :: MeaningOf(slots[n], live)
  }

  lemma LastUpdateCounts(v: map<Name, Meaning>, n: Name, a: Meaning, b: Meaning)
    ensures v[n := a][n := b] == v[n := b]
  {
  }

  lemma NothingMoves(v: map<Name, Meaning>, from: Name, to: Name)
    requires from in v && to in v && v[from] == Nothing && v[to] == Nothing
    ensures v[to := v[from]][from := Nothing] == v
  {
  }

  /** The three moves of `swap`, on values. */
  lemma SwappedByMoves(v: map<Name, Meaning>, n: Name, m: Name, tmp: Name)
    requires n in v && m in v && n != m && tmp !in v
    ensures var v1 := v[tmp := v[m]][m := Nothing];
            var v2 := v1[m := v1[n]][n := Nothing];
            var v3 := v2[n := v2[tmp]][tmp := Nothing];
            v3 - {tmp} == v[n := v[m]][m := v[n]]
  {
  }

  /** Assignment by swapping with a temporary, on values. */
  lemma SwappedIn(v: map<Name, Meaning>, n: Name, tmp: Name, x: Meaning)
    requires n in v && tmp !in v
    ensures var v1 := v[tmp := x];
            v1[tmp := v1[n]][n := v1[tmp]] - {tmp} == v[n := x]
  {
  }

  lemma MovedIn(v: map<Name, Meaning>, n: Name, rhs: Name, tmp: Name)
    requires n in v && rhs in v && tmp !in v
    ensures var v1 := v[tmp := v[rhs]][rhs := Nothing];
            v1[tmp := v1[n]][n := v1[tmp]] - {tmp} ==
            if n == rhs then v else v[n := v[rhs]][rhs := Nothing]
  {
  }

  // ---------- what each step does to ownership and meaning ----------

  /** The living objects after one moved to a new place, or stayed where it was. */
  function MovedObjects(live: Objects, o: nat, dest: nat): Objects
    requires o in live
  {
    (live - {o})[dest := live[o]]
  }

  lemma MoveKeepsOwning(slots: Slots, live: Objects, owner: map<nat, Name>, from: Name, to: Name, dest: nat)
    requires Owning(slots, live, owner) && from in slots && slots[from].Holding? && from != to
    requires slots[from].id in live
    requires to in slots ==> slots[to].Empty?
    requires dest == slots[from].id || dest !in live
    ensures Owning(slots[from := Empty][to := Holding(slots[from].ty, dest)],
                   MovedObjects(live, slots[from].id, dest), owner[dest := to])
  {
    var o := slots[from].id;
    var after := slots[from := Empty][to := Holding(slots[from].ty, dest)];
    var live', owner' := MovedObjects(live, o, dest), owner[dest := to];
    assert HoldsWell(slots, live, owner, from);
    forall n | n in after
      ensures HoldsWell(after, live', owner', n)
    {
      if n != from && n != to {
        assert HoldsWell(slots, live, owner, n);
      }
    }
    forall x | x in live'
      ensures IsHeld(after, owner', x)
    {
      if x != dest {
        assert IsHeld(slots, owner, x);
      }
    }
  }

  lemma MoveMoves(slots: Slots, live: Objects, owner: map<nat, Name>, from: Name, to: Name, dest: nat)
    requires Owning(slots, live, owner) && from in slots && slots[from].Holding? && from != to
    requires slots[from].id in live
    requires to in slots ==> slots[to].Empty?
    requires dest == slots[from].id || dest !in live
    ensures Meanings(slots[from := Empty][to := Holding(slots[from].ty, dest)],
                     MovedObjects(live, slots[from].id, dest)) ==
            Meanings(slots, live)[to := Meanings(slots, live)[from]][from := Nothing]
  {
    var o := slots[from].id;
    var after := slots[from := Empty][to := Holding(slots[from].ty, dest)];
    var live' := MovedObjects(live, o, dest);
    assert HoldsWell(slots, live, owner, from);
    forall n | n in slots && n != from && n != to
      ensures MeaningOf(slots[n], live') == MeaningOf(slots[n], live)
    {
      assert HoldsWell(slots, live, owner, n);
    }
    var was := Meanings(slots, live);
    assert Meanings(after, live').Keys == was[to := was[from]][from := Nothing].Keys;
  }

  lemma DestroyEmpties(slots: Slots, live: Objects, owner: map<nat, Name>, n: Name)
    requires Owning(slots, live, owner) && n in slots && slots[n].Holding?
    ensures Owning(slots[n := Empty], live - {slots[n].id}, owner)
    ensures Meanings(slots[n := Empty], live - {slots[n].id}) == Meanings(slots, live)[n := Nothing]
  {
    var after, live' := slots[n := Empty], live - {slots[n].id};
    assert HoldsWell(slots, live, owner, n);
    forall m | m in after
      ensures HoldsWell(after, live', owner, m)
      ensures m != n ==> MeaningOf(after[m], live') == MeaningOf(slots[m], live)
    {
      if m != n {
        assert HoldsWell(slots, live, owner, m);
      }
    }
    forall x | x in live'
      ensures IsHeld(after, owner, x)
    {
      assert IsHeld(slots, owner, x);
    }
  }

  lemma ConstructFills(slots: Slots, live: Objects, owner: map<nat, Name>, n: Name, obj: Object, id: nat)
    requires Owning(slots, live, owner) && id !in live && (n in slots ==> slots[n].Empty?)
    ensures Owning(slots[n := Holding(obj.ty, id)], live[id := obj], owner[id := n])
    ensures Meanings(slots[n := Holding(obj.ty, id)], live[id := obj]) ==
            Meanings(slots, live)[n := Value(obj.ty, obj.value)]
  {
    var after, live', owner' := slots[n := Holding(obj.ty, id)], live[id := obj], owner[id := n];
    forall m | m in after
      ensures HoldsWell(after, live', owner', m)
      ensures m != n ==> MeaningOf(after[m], live') == MeaningOf(slots[m], live)
    {
      if m != n {
        assert HoldsWell(slots, live, owner, m);
      }
    }
    forall x | x in live'
      ensures IsHeld(after, owner', x)
    {
      if x != id {
        assert IsHeld(slots, owner, x);
      }
    }
  }

  lemma EmptyAppears(slots: Slots, live: Objects, owner: map<nat, Name>, n: Name)
    requires Owning(slots, live, owner) && n !in slots
    ensures Owning(slots[n := Empty], live, owner)
    ensures Meanings(slots[n := Empty], live) == Meanings(slots, live)[n := Nothing]
  {
    var after := slots[n := Empty];
    forall m | m in after
      ensures HoldsWell(after, live, owner, m)
    {
      if m != n {
        assert HoldsWell(slots, live, owner, m);
      }
    }
    forall x | x in live
      ensures IsHeld(after, owner, x)
    {
      assert IsHeld(slots, owner, x);
    }
  }

  lemma EmptyVanishes(slots: Slots, live: Objects, owner: map<nat, Name>, n: Name)
    requires Owning(slots, live, owner) && n in slots && slots[n].Empty?
    ensures Owning(slots - {n}, live, owner)
    ensures Meanings(slots - {n}, live) == Meanings(slots, live) - {n}
  {
    var after := slots - {n};
    forall m | m in after
      ensures HoldsWell(after, live, owner, m)
    {
      assert HoldsWell(slots, live, owner, m);
    }
    forall x | x in live
      ensures IsHeld(after, owner, x)
    {
      assert IsHeld(slots, owner, x);
    }
  }

  lemma ExchangePointers(slots: Slots, live: Objects, owner: map<nat, Name>, n: Name, m: Name)
    requires Owning(slots, live, owner) && n in slots && m in slots && n != m
    requires slots[n].Holding? && slots[m].Holding? && slots[n].ty == slots[m].ty
    ensures Owning(slots[n := slots[m]][m := slots[n]], live, owner[slots[n].id := m][slots[m].id := n])
    ensures Meanings(slots[n := slots[m]][m := slots[n]], live) ==
            Meanings(slots, live)[n := Meanings(slots, live)[m]][m := Meanings(slots, live)[n]]
  {
    var after := slots[n := slots[m]][m := slots[n]];
    var owner' := owner[slots[n].id := m][slots[m].id := n];
    assert HoldsWell(slots, live, owner, n) && HoldsWell(slots, live, owner, m);
    forall k | k in after
      ensures HoldsWell(after, live, owner', k)
    {
      if k != n && k != m {
        assert HoldsWell(slots, live, owner, k);
      }
    }
    forall x | x in live
      ensures IsHeld(after, owner', x)
    {
      assert IsHeld(slots, owner, x);
    }
  }

  lemma ExchangeValues(slots: Slots, live: Objects, owner: map<nat, Name>, n: Name, m: Name)
    requires Owning(slots, live, owner) && n in slots && m in slots && n != m
    requires slots[n].Holding? && slots[m].Holding? && slots[n].ty == slots[m].ty
    requires slots[n].id in live && slots[m].id in live
    ensures var o, p := slots[n].id, slots[m].id;
            var live' := live[o := live[p]][p := live[o]];
            && Owning(slots, live', owner)
            && Meanings(slots, live') == Meanings(slots, live)[n := Meanings(slots, live)[m]][m := Meanings(slots, live)[n]]
  {
    var o, p := slots[n].id, slots[m].id;
    var live' := live[o := live[p]][p := live[o]];
    assert HoldsWell(slots, live, owner, n) && HoldsWell(slots, live, owner, m);
    forall k | k in slots
      ensures HoldsWell(slots, live', owner, k)
      ensures k != n && k != m ==> MeaningOf(slots[k], live') == MeaningOf(slots[k], live)
    {
      assert HoldsWell(slots, live, owner, k);
    }
    forall x | x in live'
      ensures IsHeld(slots, owner, x)
    {
      assert IsHeld(slots, owner, x);
    }
  }

  function HeldIds(slots: Slots): set<nat> {
    set n | n in slots && slots[n].Holding? :: slots[n].id
  }

  /** The objects alive are exactly those held: nothing leaks, nothing dangles. */
  lemma LiveIsHeld(slots: Slots, live: Objects, owner: map<nat, Name>)
    requires Owning(slots, live, owner)
    ensures live.Keys == HeldIds(slots)
  {
    forall o | o in live
      ensures o in HeldIds(slots)
    {
      assert IsHeld(slots, owner, o);
    }
    forall n | n in slots && slots[n].Holding?
      ensures slots[n].id in live
    {
      assert HoldsWell(slots, live, owner, n);
    }
  }

  // ---------- programs, on values ----------

  /** An operation on the variables of a program; `fails` stands for an exception. */
  datatype Operation =
    | Declare(n: nat)
    | DeclareValue(n: nat, ty: Type, value: int, fails: bool)
    | DeclareCopy(n: nat, rhs: nat, fails: bool)
    | DeclareMove(n: nat, rhs: nat)
    | SetCopy(n: nat, rhs: nat, fails: bool)
    | SetMove(n: nat, rhs: nat)
    | SetValue(n: nat, ty: Type, value: int, fails: bool)
    | Exchange(n: nat, rhs: nat)
    | Reset(n: nat)
    | LeaveScope(n: nat)

  /** A variable is declared once before it is used and not used after its scope. */
  predicate Enabled(names: set<Name>, op: Operation) {
    match op
    case Declare(n) => Variable(n) !in names
    case DeclareValue(n, _, _, _) => Variable(n) !in names
    case DeclareCopy(n, rhs, _) => Variable(n) !in names && Variable(rhs) in names
    case DeclareMove(n, rhs) => Variable(n) !in names && Variable(rhs) in names
    case SetCopy(n, rhs, _) => Variable(n) in names && Variable(rhs) in names
    case SetMove(n, rhs) => Variable(n) in names && Variable(rhs) in names
    case SetValue(n, _, _, _) => Variable(n) in names
    case Exchange(n, rhs) => Variable(n) in names && Variable(rhs) in names
    case Reset(n) => Variable(n) in names
    case LeaveScope(n) => Variable(n) in names
  }

  /** What the operation should do if an `any` were a plain value. */
  function Meant(v: map<Name, Meaning>, op: Operation): map<Name, Meaning>
    requires Enabled(v.Keys, op)
  {
    match op
    case Declare(n) => v[Variable(n) := Nothing]
    case DeclareValue(n, t, x, fails) => if fails then v else v[Variable(n) := Value(t, x)]
    case DeclareCopy(n, rhs, fails) =>
      if fails && v[Variable(rhs)] != Nothing then v else v[Variable(n) := v[Variable(rhs)]]
    case DeclareMove(n, rhs) => v[Variable(n) := v[Variable(rhs)]][Variable(rhs) := Nothing]
    case SetCopy(n, rhs, fails) =>
      if fails && v[Variable(rhs)] != Nothing then v else v[Variable(n) := v[Variable(rhs)]]
    case SetMove(n, rhs) =>
      if n == rhs then v else v[Variable(n) := v[Variable(rhs)]][Variable(rhs) := Nothing]
    case SetValue(n, t, x, fails) => if fails then v else v[Variable(n) := Value(t, x)]
    case Exchange(n, rhs) => v[Variable(n) := v[Variable(rhs)]][Variable(rhs) := v[Variable(n)]]
    case Reset(n) => v[Variable(n) := Nothing]
    case LeaveScope(n) => v - {Variable(n)}
  }

  predicate Legal(v: map<Name, Meaning>, ops: seq<Operation>)
    decreases |ops|
  {
    ops == [] || (Enabled(v.Keys, ops[0]) && Legal(Meant(v, ops[0]), ops[1..]))
  }

  function MeantByAll(v: map<Name, Meaning>, ops: seq<Operation>): map<Name, Meaning>
    requires Legal(v, ops)
    decreases |ops|
  {
    if ops == [] then v else MeantByAll(Meant(v, ops[0]), ops[1..])
  }

  /** The values a program goes through, one operation after the other. */
  lemma {:induction false} MeantInOrder(v: map<Name, Meaning>, ops: seq<Operation>) returns (vs: seq<map<Name, Meaning>>)
    requires Legal(v, ops)
    ensures |vs| == |ops| + 1 && vs[0] == v && vs[|ops|] == MeantByAll(v, ops)
    ensures forall i :: 0 <= i < |ops| ==> Enabled(vs[i].Keys, ops[i]) && vs[i + 1] == Meant(vs[i], ops[i])
    decreases |ops|
  {
    if ops == [] {
      vs := [v];
    } else {
      var rest := MeantInOrder(Meant(v, ops[0]), ops[1..]);
      vs := [v] + rest;
    }
  }

  // ---------- the objects of type any, and the memory they share ----------

  /** The two fields of an `any`. The storage means nothing while the table is absent. */
  datatype Any = Any(vtable: Option<Type>, storage: nat) {
    function Slot(): Slot {
      if vtable.None? then Empty else Holding(vtable.value, storage)
    }
  }

  /** The storage a moved-from or new `any` is left with. */
  const NULL: nat := 0

  function SlotsOf(anys: map<Name, Any>): (slots: Slots)
    ensures slots.Keys == anys.Keys
  {
    map n | n in anys :: anys[n].Slot()
  }

  function SlotsWithout(anys: map<Name, Any>, n: Name): (slots: Slots)
    ensures slots.Keys == anys.Keys + {n}
  {
    SlotsOf(anys)[n := Empty]
  }

  lemma OtherFieldsDoNotShow(anys: map<Name, Any>, n: Name, a: Any)
    requires n in anys
    ensures SlotsWithout(anys[n := a], n) == SlotsWithout(anys, n)
  {
  }

  lemma NothingToMove(anys: map<Name, Any>, from: Name, to: Name)
    requires from in anys && to in anys && anys[from].vtable.None? && anys[to].vtable.None?
    ensures SlotsWithout(anys, from) == SlotsWithout(anys, to)
  {
  }

  lemma MovedSlots(anys: map<Name, Any>, after: map<Name, Any>, from: Name, to: Name)
    requires from in anys && to in anys && from != to && anys[from].vtable.Some?
    requires anys[to].vtable == anys[from].vtable
    requires after.Keys == anys.Keys && after[to].vtable == anys[to].vtable
    requires forall n :: n in anys && n != from && n != to ==> after[n] == anys[n]
    ensures SlotsWithout(after, from) ==
            SlotsWithout(anys, to)[from := Empty][to := Holding(anys[from].vtable.value, after[to].storage)]
  {
  }

  class Program {
    var anys: map<Name, Any>
    var live: Objects
    var next: nat
    ghost var owner: map<nat, Name>

    /** Ownership over the whole program; a new object gets an identity never used before. */
    ghost predicate Valid()
      reads this
    {
      && Owning(SlotsOf(anys), live, owner)
      && NULL < next
      && Below(live, next)
    }

    /** What the program sees: the value in each of its variables. */
    ghost function View(): map<Name, Meaning>
      reads this
    {
      Meanings(SlotsOf(anys), live)
    }

    /** The same two while `n` still has the table of an object that was moved out of it. */
    ghost predicate ValidWithout(n: Name)
      reads this
    {
      && Owning(SlotsWithout(anys, n), live, owner)
      && NULL < next
      && Below(live, next)
    }

    ghost function ViewWithout(n: Name): (view: map<Name, Meaning>)
      reads this
      ensures view.Keys == anys.Keys + {n}
    {
      Meanings(SlotsWithout(anys, n), live)
    }

    lemma EmptySlot(n: Name)
      requires n in anys && anys[n].vtable.None?
      ensures SlotsWithout(anys, n) == SlotsOf(anys)
    {
    }

    constructor ()
      ensures Valid() && View() == map[] && live == map[]
    {
      anys, live, next, owner := map[], map[], NULL + 1, map[];
    }

    // ----- the operations of the tables -----

    /** `move` of both tables: a heap object changes hands, a stack object is constructed
        anew in `dest` and destroyed in `src`. The type tables of both stay as they are. */
    method TableMove(t: Type, src: Name, dest: Name)
      requires src in anys && dest in anys && src != dest && anys[src].storage in live
      requires Below(live, next)
      modifies this`anys, this`live, this`next
      ensures anys.Keys == old(anys.Keys)
      ensures anys[src].vtable == old(anys[src].vtable) && anys[dest].vtable == old(anys[dest].vtable)
      ensures forall n :: n in anys && n != src && n != dest ==> anys[n] == old(anys[n])
      ensures anys[dest].storage == old(anys[src].storage) || anys[dest].storage !in old(live)
      ensures live == MovedObjects(old(live), old(anys[src].storage), anys[dest].storage)
      ensures old(next) <= next && Below(live, next)
    {
      if t.onHeap {
        anys := anys[dest := anys[dest].(storage := anys[src].storage)];
        anys := anys[src := anys[src].(storage := NULL)];
        assert live == MovedObjects(live, old(anys[src].storage), anys[dest].storage);
      } else {
        live := live[next := live[anys[src].storage]];
        anys := anys[dest := anys[dest].(storage := next)];
        next := next + 1;
        TableDestroy(src);
      }
    }

    /** `destroy` of both tables; the object must be alive. */
    method TableDestroy(n: Name)
      requires n in anys && anys[n].storage in live
      modifies this`live
      ensures live == old(live) - {anys[n].storage}
    {
      live := live - {anys[n].storage};
    }

    /** Moves the object of `from` into `to`, which has taken over its table. */
    method MoveObject(from: Name, to: Name, ghost before: Slots)
      requires from in anys && to in anys && from != to && anys[from].vtable.Some?
      requires anys[to].vtable == anys[from].vtable
      requires before == SlotsWithout(anys, to)
      requires Owning(before, live, owner) && NULL < next && Below(live, next)
      modifies this
      ensures anys.Keys == old(anys.Keys) && anys[from].vtable == old(anys[from].vtable)
      ensures NULL < next && Below(live, next)
      ensures Owning(SlotsWithout(anys, from), live, owner)
      ensures var v := Meanings(before, old(live));
              ViewWithout(from) == v[to := v[from]][from := Nothing]
    {
      assert before[from] == anys[from].Slot();
      assert HoldsWell(before, live, owner, from);
      TableMove(anys[from].vtable.value, from, to);
      ghost var id := anys[to].storage;
      MovedSlots(old(anys), anys, from, to);
      MoveKeepsOwning(before, old(live), owner, from, to, id);
      MoveMoves(before, old(live), owner, from, to, id);
      owner := owner[id := to];
    }

    /** Takes over the table of `from` and moves its object: `from` is left with a table for
        an object it no longer has, as `to` may have been before. */
    method MoveInto(from: Name, to: Name)
      requires from in anys && to in anys && from != to
      requires ValidWithout(to)
      modifies this
      ensures anys.Keys == old(anys.Keys) && ValidWithout(from)
      ensures ViewWithout(from) == old(ViewWithout(to))[to := old(ViewWithout(to))[from]][from := Nothing]
    {
      ghost var before := SlotsWithout(anys, to);
      OtherFieldsDoNotShow(anys, to, anys[to].(vtable := anys[from].vtable));
      anys := anys[to := anys[to].(vtable := anys[from].vtable)];
      if anys[from].vtable.Some? {
        MoveObject(from, to, before);
      } else {
        NothingToMove(anys, from, to);
        NothingMoves(ViewWithout(from), from, to);
      }
    }

    /** Resets the table of an `any` whose object was moved out of it. */
    method DropTable(n: Name)
      requires n in anys && ValidWithout(n)
      modifies this`anys
      ensures anys.Keys == old(anys.Keys) && anys[n].vtable.None?
      ensures Valid() && View() == old(ViewWithout(n))
    {
      anys := anys[n := anys[n].(vtable := None)];
      assert SlotsOf(anys) == old(SlotsWithout(anys, n));
    }

    // ----- construction and destruction -----

    method ConstructEmpty(n: Name)
      requires Valid() && n !in anys
      modifies this
      ensures Valid() && anys.Keys == old(anys.Keys) + {n} && anys[n].vtable.None?
      ensures View() == old(View())[n := Nothing]
    {
      EmptyAppears(SlotsOf(anys), live, owner, n);
      assert SlotsOf(anys[n := Any(None, NULL)]) == SlotsOf(anys)[n := Empty];
      anys := anys[n := Any(None, NULL)];
    }

    /** Construction from a value; `fails` says that the constructor of the stored type throws. */
    method ConstructValue(n: Name, t: Type, value: int, fails: bool) returns (threw: bool)
      requires Valid() && n !in anys
      modifies this
      ensures Valid() && threw == fails
      ensures anys.Keys == old(anys.Keys) + if threw then {} else {n}
      ensures View() == if threw then old(View()) else old(View())[n := Value(t, value)]
    {
      if fails {
        return true;
      }
      ConstructFills(SlotsOf(anys), live, owner, n, Object(t, value), next);
      assert SlotsOf(anys[n := Any(Some(t), next)]) == SlotsOf(anys)[n := Holding(t, next)];
      live := live[next := Object(t, value)];
      anys := anys[n := Any(Some(t), next)];
      owner := owner[next := n];
      next := next + 1;
      return false;
    }

    /** Copy construction; copying the stored object may throw. */
    method ConstructCopy(n: Name, rhs: Name, fails: bool) returns (threw: bool)
      requires Valid() && n !in anys && rhs in anys
      modifies this
      ensures Valid() && threw == (fails && old(anys[rhs].vtable.Some?))
      ensures anys.Keys == old(anys.Keys) + if threw then {} else {n}
      ensures View() == if threw then old(View()) else old(View())[n := old(View())[rhs]]
    {
      if anys[rhs].vtable.None? {
        ConstructEmpty(n);
        return false;
      }
      assert HoldsWell(SlotsOf(anys), live, owner, rhs);
      threw := ConstructValue(n, anys[rhs].vtable.value, live[anys[rhs].storage].value, fails);
    }

    /** Move construction; the source is left empty. */
    method ConstructMove(n: Name, rhs: Name)
      requires Valid() && n !in anys && rhs in anys
      modifies this
      ensures Valid() && anys.Keys == old(anys.Keys) + {n} && anys[rhs].vtable.None?
      ensures View() == old(View())[n := old(View())[rhs]][rhs := Nothing]
    {
      ghost var v := View();
      ConstructEmpty(n);
      EmptySlot(n);
      MoveInto(rhs, n);
      LastUpdateCounts(v, n, Nothing, v[rhs]);
      DropTable(rhs);
    }

    /** `clear`. */
    method Clear(n: Name)
      requires Valid() && n in anys
      modifies this
      ensures Valid() && anys.Keys == old(anys.Keys) && anys[n].vtable.None?
      ensures View() == old(View())[n := Nothing]
    {
      if anys[n].vtable.Some? {
        assert HoldsWell(SlotsOf(anys), live, owner, n);
        DestroyEmpties(SlotsOf(anys), live, owner, n);
        TableDestroy(n);
        anys := anys[n := anys[n].(vtable := None)];
        assert SlotsOf(anys) == old(SlotsOf(anys))[n := Empty];
      }
    }

    /** The destructor. */
    method Destruct(n: Name)
      requires Valid() && n in anys
      modifies this
      ensures Valid() && anys.Keys == old(anys.Keys) - {n}
      ensures View() == old(View()) - {n}
    {
      Clear(n);
      EmptyVanishes(SlotsOf(anys), live, owner, n);
      assert SlotsOf(anys - {n}) == SlotsOf(anys) - {n};
      anys := anys - {n};
    }

    // ----- swap and assignment -----

    /** `swap`: of different types by three moves, of the same type by the table's own swap. */
    method Swap(n: Name, m: Name)
      requires Valid() && n in anys && m in anys && SwapTemporary !in anys
      modifies this
      ensures Valid() && anys.Keys == old(anys.Keys)
      ensures View() == old(View())[n := old(View())[m]][m := old(View())[n]]
    {
      if anys[n].vtable != anys[m].vtable {
        SwapByMoves(n, m);
      } else if anys[n].vtable.Some? {
        TableSwap(n, m);
      } else {
        assert View()[n := View()[m]][m := View()[n]] == View();
      }
    }

    method SwapByMoves(n: Name, m: Name)
      requires Valid() && n in anys && m in anys && n != m && SwapTemporary !in anys
      modifies this
      ensures Valid() && anys.Keys == old(anys.Keys)
      ensures View() == old(View())[n := old(View())[m]][m := old(View())[n]]
    {
      ghost var v := View();
      ConstructMove(SwapTemporary, m);
      EmptySlot(m);
      MoveInto(n, m);
      MoveInto(SwapTemporary, n);
      DropTable(SwapTemporary);
      Destruct(SwapTemporary);
      SwappedByMoves(v, n, m, SwapTemporary);
    }

    /** `swap` of both tables. */
    method TableSwap(n: Name, m: Name)
      requires Valid() && n in anys && m in anys && anys[n].vtable.Some? && anys[n].vtable == anys[m].vtable
      modifies this
      ensures Valid() && anys.Keys == old(anys.Keys)
      ensures View() == old(View())[n := old(View())[m]][m := old(View())[n]]
    {
      ghost var slots := SlotsOf(anys);
      assert HoldsWell(slots, live, owner, n) && HoldsWell(slots, live, owner, m);
      var o, p := anys[n].storage, anys[m].storage;
      if n == m {
        assert View()[n := View()[m]][m := View()[n]] == View();
      } else if anys[n].vtable.value.onHeap {
        ExchangePointers(slots, live, owner, n, m);
        anys := anys[n := anys[n].(storage := p)][m := anys[m].(storage := o)];
        owner := owner[o := m][p := n];
        assert SlotsOf(anys) == slots[n := slots[m]][m := slots[n]];
      } else {
        ExchangeValues(slots, live, owner, n, m);
        live := live[o := live[p]][p := live[o]];
      }
    }

    /** Copy assignment, to itself as well; on an exception nothing has changed. */
    method AssignCopy(n: Name, rhs: Name, fails: bool) returns (threw: bool)
      requires Valid() && n in anys && rhs in anys && AssignTemporary !in anys && SwapTemporary !in anys
      modifies this
      ensures Valid() && anys.Keys == old(anys.Keys) && threw == (fails && old(anys[rhs].vtable.Some?))
      ensures View() == if threw then old(View()) else old(View())[n := old(View())[rhs]]
    {
      ghost var v := View();
      threw := ConstructCopy(AssignTemporary, rhs, fails);
      if !threw {
        Swap(AssignTemporary, n);
        Destruct(AssignTemporary);
        SwappedIn(v, n, AssignTemporary, v[rhs]);
      }
    }

    /** Assignment of a value; on an exception nothing has changed. */
    method AssignValue(n: Name, t: Type, value: int, fails: bool) returns (threw: bool)
      requires Valid() && n in anys && AssignTemporary !in anys && SwapTemporary !in anys
      modifies this
      ensures Valid() && anys.Keys == old(anys.Keys) && threw == fails
      ensures View() == if threw then old(View()) else old(View())[n := Value(t, value)]
    {
      ghost var v := View();
      threw := ConstructValue(AssignTemporary, t, value, fails);
      if !threw {
        Swap(AssignTemporary, n);
        Destruct(AssignTemporary);
        SwappedIn(v, n, AssignTemporary, Value(t, value));
      }
    }

    /** Move assignment: the source is left empty, unless it is the target itself. */
    method AssignMove(n: Name, rhs: Name)
      requires Valid() && n in anys && rhs in anys && AssignTemporary !in anys && SwapTemporary !in anys
      modifies this
      ensures Valid() && anys.Keys == old(anys.Keys)
      ensures View() == if n == rhs then old(View()) else old(View())[n := old(View())[rhs]][rhs := Nothing]
    {
      ghost var v := View();
      ConstructMove(AssignTemporary, rhs);
      Swap(AssignTemporary, n);
      Destruct(AssignTemporary);
      MovedIn(v, n, rhs, AssignTemporary);
    }

    // ----- whole programs -----

    method Perform(op: Operation)
      requires Valid() && AssignTemporary !in anys && SwapTemporary !in anys && Enabled(View().Keys, op)
      modifies this
      ensures Valid() && AssignTemporary !in anys && SwapTemporary !in anys
      ensures View() == Meant(old(View()), op)
    {
      match op {
        case Declare(n) => ConstructEmpty(Variable(n));
        case DeclareValue(n, t, x, fails) => var _ := ConstructValue(Variable(n), t, x, fails);
        case DeclareCopy(n, rhs, fails) =>
          EmptyMeansNothing(Variable(rhs));
          var _ := ConstructCopy(Variable(n), Variable(rhs), fails);
        case DeclareMove(n, rhs) => ConstructMove(Variable(n), Variable(rhs));
        case SetCopy(n, rhs, fails) =>
          EmptyMeansNothing(Variable(rhs));
          var _ := AssignCopy(Variable(n), Variable(rhs), fails);
        case SetMove(n, rhs) => AssignMove(Variable(n), Variable(rhs));
        case SetValue(n, t, x, fails) => var _ := AssignValue(Variable(n), t, x, fails);
        case Exchange(n, rhs) => Swap(Variable(n), Variable(rhs));
        case Reset(n) => Clear(Variable(n));
        case LeaveScope(n) => Destruct(Variable(n));
      }
    }

    lemma EmptyMeansNothing(n: Name)
      requires Valid() && n in anys
      ensures View()[n] == Nothing <==> anys[n].vtable.None?
    {
      assert HoldsWell(SlotsOf(anys), live, owner, n);
    }

    /** Every program of these operations keeps ownership and computes what it would with
        plain values; a program that has left all its scopes leaves no object behind. */
    method Execute(ops: seq<Operation>)
      requires Valid() && AssignTemporary !in anys && SwapTemporary !in anys && Legal(View(), ops)
      modifies this
      ensures Valid() && View() == MeantByAll(old(View()), ops)
      ensures View() == map[] ==> live == map[]
    {
      var i := 0;
      while i < |ops|
        invariant 0 <= i <= |ops|
        invariant Valid() && AssignTemporary !in anys && SwapTemporary !in anys
        invariant Legal(View(), ops[i..]) && MeantByAll(View(), ops[i..]) == MeantByAll(old(View()), ops)
      {
        assert ops[i..][0] == ops[i] && ops[i..][1..] == ops[i + 1..];
        Perform(ops[i]);
        i := i + 1;
      }
      if View() == map[] {
        LiveIsHeld(SlotsOf(anys), live, owner);
        assert View().Keys == SlotsOf(anys).Keys;
        assert HeldIds(SlotsOf(anys)) == {};
      }
    }
  }
}
