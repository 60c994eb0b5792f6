/**
  `recursive_directory_iterator`: a stack of directory listings that refines the recursive
  preorder of a fixed directory tree.
  */
module DirectoryWalk {
  /** What `opendir` does on a directory. */
  datatype Opening = Opens | Denied | Fails

  datatype Entry = Entry(name: string, isDirectory: bool, isSymlink: bool, opening: Opening, children: seq<Entry>)

  datatype Options = Options(followSymlinks: bool, skipDenied: bool)

  /** An entry together with its nesting depth. */
  datatype Visit = Visit(entry: Entry, depth: nat)

  predicate Descends(o: Options, e: Entry) {
    e.isDirectory && (!e.isSymlink || o.followSymlinks)
  }

  /** Opening the directory reports an error. */
  predicate Blocks(o: Options, e: Entry) {
    Descends(o, e) && (e.opening.Fails? || (e.opening.Denied? && !o.skipDenied))
  }

  function Listing(e: Entry): seq<Entry> {
    if e.opening.Opens? then e.children else []
  }

  // ---------- the reference: recursive preorder ----------

  function Preorder(o: Options, es: seq<Entry>, depth: nat): seq<Visit> {
    if es == [] then []
    else [Visit(es[0], depth)] + (Below(o, es[0], depth) + Preorder(o, es[1..], depth))
  }

  /** The part of the preorder strictly inside an entry. */
  function Below(o: Options, e: Entry, depth: nat): seq<Visit> {
    if Descends(o, e) && e.opening.Opens? then Preorder(o, e.children, depth + 1) else []
  }

  /** No directory that would be entered reports an error. */
  predicate Unblocked(o: Options, es: seq<Entry>) {
    es != [] ==>
      && !Blocks(o, es[0])
      && (Descends(o, es[0]) && es[0].opening.Opens? ==> Unblocked(o, es[0].children))
      && Unblocked(o, es[1..])
  }

  // ---------- what a stack has still to visit ----------

  /** A stack of listings, each with the current entry in front. */
  type Frames = seq<seq<Entry>>

  /** Behind the current entries of all listings, innermost first. */
  function Rest(o: Options, fs: Frames): seq<Visit>
    decreases |fs|
  {
    if fs == [] then []
    else
      var top := fs[|fs| - 1];
      Preorder(o, if top == [] then [] else top[1..], |fs| - 1) + Rest(o, fs[..|fs| - 1])
  }

  /** From the current entry of the innermost listing on. */
  function Ahead(o: Options, fs: Frames): seq<Visit>
    requires fs != []
  {
    Preorder(o, fs[|fs| - 1], |fs| - 1) + Rest(o, fs[..|fs| - 1])
  }

  /** With recursion disabled for the current entry, its inside is left out. */
  function Remaining(o: Options, fs: Frames, pending: bool): seq<Visit>
    requires fs != []
  {
    var top := fs[|fs| - 1];
    if top == [] || pending then Ahead(o, fs) else [Visit(top[0], |fs| - 1)] + Rest(o, fs)
  }

  /** Every listing but the innermost stands on the directory it leads into. */
  predicate IsStack(fs: Frames) {
    fs != [] && forall i :: 0 <= i < |fs| - 1 ==> fs[i] != []
  }

  /** Between calls, only the outermost listing can be exhausted. */
  predicate IsSettled(fs: Frames) {
    IsStack(fs) && (|fs| > 1 ==> fs[|fs| - 1] != [])
  }

  predicate AtEnd(fs: Frames)
    requires fs != []
  {
    fs[|fs| - 1] == []
  }

  /** `increment` of the innermost listing. */
  function Advance(fs: Frames): Frames
    requires fs != [] && fs[|fs| - 1] != []
  {
    fs[..|fs| - 1] + [fs[|fs| - 1][1..]]
  }

  /** The loop that leaves exhausted listings and moves on in the one above. */
  function Settle(fs: Frames): (gs: Frames)
    requires IsStack(fs)
    ensures IsSettled(gs)
    decreases |fs|
  {
    if |fs| > 1 && AtEnd(fs) then Settle(Advance(fs[..|fs| - 1])) else fs
  }

  lemma AheadIs(o: Options, fs: Frames)
    requires fs != [] && !AtEnd(fs)
    ensures var top := fs[|fs| - 1];
            Ahead(o, fs) == [Visit(top[0], |fs| - 1)] + (Below(o, top[0], |fs| - 1) + Rest(o, fs))
  {
  }

  lemma AdvanceIs(o: Options, fs: Frames)
    requires fs != [] && !AtEnd(fs)
    ensures Ahead(o, Advance(fs)) == Rest(o, fs)
  {
    assert Advance(fs)[..|fs| - 1] == fs[..|fs| - 1];
  }

  lemma {:induction false} SettleKeepsAhead(o: Options, fs: Frames)
    requires IsStack(fs)
    ensures Ahead(o, Settle(fs)) == Ahead(o, fs)
    decreases |fs|
  {
    if |fs| > 1 && AtEnd(fs) {
      var outer := fs[..|fs| - 1];
      AdvanceIs(o, outer);
      SettleKeepsAhead(o, Advance(outer));
      assert Preorder(o, fs[|fs| - 1], |fs| - 1) == [];
    }
  }

  // ---------- one increment ----------

  /** The stack after `increment`; an error leaves it as it was. */
  function Incremented(o: Options, fs: Frames, pending: bool): (gs: Frames)
    requires IsSettled(fs) && !AtEnd(fs)
    ensures IsSettled(gs)
  {
    var e := fs[|fs| - 1][0];
    if pending && Blocks(o, e) then fs
    else if pending && Descends(o, e) then Settle(fs + [Listing(e)])
    else Settle(Advance(fs))
  }

  lemma EnterIs(o: Options, fs: Frames)
    requires fs != [] && !AtEnd(fs) && Descends(o, fs[|fs| - 1][0])
    ensures Ahead(o, fs + [Listing(fs[|fs| - 1][0])]) == Below(o, fs[|fs| - 1][0], |fs| - 1) + Rest(o, fs)
  {
    var e := fs[|fs| - 1][0];
    var inner := fs + [Listing(e)];
    assert inner[..|inner| - 1] == fs;
    assert Below(o, e, |fs| - 1) == Preorder(o, Listing(e), |fs|);
  }

  lemma IncrementAhead(o: Options, fs: Frames, pending: bool)
    requires IsSettled(fs) && !AtEnd(fs)
    requires !(pending && Blocks(o, fs[|fs| - 1][0]))
    ensures Ahead(o, Incremented(o, fs, pending)) ==
            (if pending then Below(o, fs[|fs| - 1][0], |fs| - 1) else []) + Rest(o, fs)
  {
    var e := fs[|fs| - 1][0];
    if pending && Descends(o, e) {
      EnterIs(o, fs);
      SettleKeepsAhead(o, fs + [Listing(e)]);
    } else {
      AdvanceIs(o, fs);
      SettleKeepsAhead(o, Advance(fs));
      assert [] + Rest(o, fs) == Rest(o, fs);
    }
  }

  /** A successful increment visits exactly the next entry of what remained. */
  lemma IncrementVisitsNext(o: Options, fs: Frames, pending: bool)
    requires IsSettled(fs) && !AtEnd(fs)
    requires !(pending && Blocks(o, fs[|fs| - 1][0]))
    ensures Remaining(o, fs, pending) ==
            [Visit(fs[|fs| - 1][0], |fs| - 1)] + Remaining(o, Incremented(o, fs, pending), true)
  {
    AheadIs(o, fs);
    IncrementAhead(o, fs, pending);
    assert [] + Rest(o, fs) == Rest(o, fs);
  }

  /** Disabling recursion skips exactly the inside of the current entry. */
  lemma DisableSkipsSubtree(o: Options, fs: Frames)
    requires IsSettled(fs) && !AtEnd(fs)
    ensures var e, d := fs[|fs| - 1][0], |fs| - 1;
            Remaining(o, fs, true) == [Visit(e, d)] + (Below(o, e, d) + Remaining(o, Incremented(o, fs, false), true))
  {
    AheadIs(o, fs);
    IncrementAhead(o, fs, false);
    assert [] + Rest(o, fs) == Rest(o, fs);
  }

  // ---------- pop ----------

  function Popped(fs: Frames): (gs: Frames)
    requires IsStack(fs)
    ensures IsSettled(gs)
  {
    if |fs| == 1 then [[]] else Settle(Advance(fs[..|fs| - 1]))
  }

  /** `pop` goes on behind the whole directory it was in. */
  lemma PopLeavesDirectory(o: Options, fs: Frames)
    requires IsStack(fs)
    ensures Remaining(o, Popped(fs), true) == Rest(o, fs[..|fs| - 1])
  {
    if |fs| > 1 {
      var outer := fs[..|fs| - 1];
      AdvanceIs(o, outer);
      SettleKeepsAhead(o, Advance(outer));
    } else {
      assert fs[..|fs| - 1] == [];
    }
  }

  /** But `pop` does not set the recursion flag again: if it was cleared before, the inside of
      the entry reached, the first one behind the directory, is left out as well, unless
      there is nothing inside. */
  lemma PopKeepsFlag(o: Options, fs: Frames, pending: bool)
    requires IsSettled(fs) && |fs| > 1
    ensures var behind := Rest(o, fs[..|fs| - 1]);
            Remaining(o, Popped(fs), pending) == behind <==>
            pending || behind == [] || Below(o, behind[0].entry, behind[0].depth) == []
  {
    PopLeavesDirectory(o, fs);
    var g := Popped(fs);
    if AtEnd(g) {
      EndHasNothingAhead(o, g);
    } else {
      AheadIs(o, g);
      var v, b, r := Visit(g[|g| - 1][0], |g| - 1), Below(o, g[|g| - 1][0], |g| - 1), Rest(o, g);
      assert |[v] + (b + r)| == 1 + |b| + |r| && |[v] + r| == 1 + |r|;
      assert b == [] ==> b + r == r;
    }
  }

  // ---------- whole walks ----------

  /** Every directory still to be entered opens. */
  ghost predicate AllUnblocked(o: Options, vs: seq<Visit>) {
    forall i :: 0 <= i < |vs| ==> !Blocks(o, vs[i].entry)
  }

  lemma {:induction false} UnblockedVisits(o: Options, es: seq<Entry>, depth: nat)
    requires Unblocked(o, es)
    ensures AllUnblocked(o, Preorder(o, es, depth))
  {
    if es != [] {
      UnblockedVisits(o, es[1..], depth);
      var inside := Below(o, es[0], depth);
      if Descends(o, es[0]) && es[0].opening.Opens? {
        UnblockedVisits(o, es[0].children, depth + 1);
      }
      assert AllUnblocked(o, inside);
    }
  }

  lemma {:induction false} VisitsUnblocked(o: Options, es: seq<Entry>, depth: nat)
    requires AllUnblocked(o, Preorder(o, es, depth))
    ensures Unblocked(o, es)
  {
    if es != [] {
      var inside, rest := Below(o, es[0], depth), Preorder(o, es[1..], depth);
      PartsUnblocked(o, Visit(es[0], depth), inside, rest);
      VisitsUnblocked(o, es[1..], depth);
      if Descends(o, es[0]) && es[0].opening.Opens? {
        VisitsUnblocked(o, es[0].children, depth + 1);
      }
    }
  }

  lemma PartsUnblocked(o: Options, v: Visit, inside: seq<Visit>, rest: seq<Visit>)
    requires AllUnblocked(o, [v] + (inside + rest))
    ensures !Blocks(o, v.entry) && AllUnblocked(o, inside) && AllUnblocked(o, rest)
  {
    var vs := [v] + (inside + rest);
    assert vs[0] == v;
    assert forall i :: 0 <= i < |inside| ==> vs[1 + i] == inside[i];
    assert forall i :: 0 <= i < |rest| ==> vs[1 + |inside| + i] == rest[i];
  }

  /** The number of visits before the first directory that cannot be opened. */
  function FirstBlocked(o: Options, vs: seq<Visit>): (k: nat)
    ensures k <= |vs| && (k < |vs| ==> Blocks(o, vs[k].entry))
    ensures k == |vs| <==> AllUnblocked(o, vs)
  {
    if vs == [] then 0
    else if Blocks(o, vs[0].entry) then assert !AllUnblocked(o, vs); 0
    else
      var k := FirstBlocked(o, vs[1..]);
      assert AllUnblocked(o, vs) <==> AllUnblocked(o, vs[1..]) by { TailUnblocked(o, vs); }
      1 + k
  }

  /** The visits up to and including it. */
  function UpToBlocked(o: Options, vs: seq<Visit>): seq<Visit> {
    var k := FirstBlocked(o, vs);
    if k < |vs| then vs[..k + 1] else vs
  }

  lemma TailUnblocked(o: Options, vs: seq<Visit>)
    requires vs != [] && !Blocks(o, vs[0].entry)
    ensures AllUnblocked(o, vs) <==> AllUnblocked(o, vs[1..])
  {
    if AllUnblocked(o, vs[1..]) {
      assert forall i :: 1 <= i < |vs| ==> vs[i] == vs[1..][i - 1];
    }
    if AllUnblocked(o, vs) {
      assert forall i :: 0 <= i < |vs| - 1 ==> vs[1..][i] == vs[i + 1];
    }
  }

  /** The stack after `n` increments, or at the end if it is reached before. */
  function Walked(o: Options, fs: Frames, n: nat): (gs: Frames)
    requires IsSettled(fs)
    ensures IsSettled(gs)
    decreases n
  {
    if n == 0 || AtEnd(fs) then fs else Walked(o, Incremented(o, fs, true), n - 1)
  }

  lemma EndHasNothingAhead(o: Options, fs: Frames)
    requires IsSettled(fs)
    ensures AtEnd(fs) <==> Ahead(o, fs) == []
  {
    if AtEnd(fs) {
      assert fs[..|fs| - 1] == [];
    } else {
      AheadIs(o, fs);
    }
  }

  /** The visits left when `n` are behind, but never the first blocked one. */
  function Passed(o: Options, vs: seq<Visit>, n: nat): seq<Visit> {
    var k := FirstBlocked(o, vs);
    vs[if n < k then n else k..]
  }

  lemma PassedNext(o: Options, vs: seq<Visit>, n: nat)
    requires n > 0 && vs != []
    ensures Blocks(o, vs[0].entry) ==> Passed(o, vs, n) == vs && Passed(o, vs, n - 1) == vs
    ensures !Blocks(o, vs[0].entry) ==> Passed(o, vs, n) == Passed(o, vs[1..], n - 1)
  {
    if !Blocks(o, vs[0].entry) {
      var k := FirstBlocked(o, vs[1..]);
      assert FirstBlocked(o, vs) == 1 + k;
      var i := if n - 1 < k then n - 1 else k;
      assert vs[1..][i..] == vs[i + 1..];
    }
  }

  /** After `n` increments, `n` visits are behind, but never the first blocked one. */
  lemma {:induction false} WalkedIs(o: Options, fs: Frames, n: nat)
    requires IsSettled(fs)
    ensures Ahead(o, Walked(o, fs, n)) == Passed(o, Ahead(o, fs), n)
    decreases n
  {
    EndHasNothingAhead(o, fs);
    if n > 0 && !AtEnd(fs) {
      OneIncrement(o, fs);
      PassedNext(o, Ahead(o, fs), n);
      WalkedIs(o, Incremented(o, fs, true), n - 1);
    }
  }

  /** One increment passes the first visit ahead, unless it is blocked. */
  lemma OneIncrement(o: Options, fs: Frames)
    requires IsSettled(fs) && !AtEnd(fs)
    ensures var vs, gs := Ahead(o, fs), Incremented(o, fs, true);
            && vs != []
            && (Blocks(o, vs[0].entry) ==> gs == fs)
            && (!Blocks(o, vs[0].entry) ==> Ahead(o, gs) == vs[1..])
  {
    AheadIs(o, fs);
    var vs, e := Ahead(o, fs), fs[|fs| - 1][0];
    assert vs[0].entry == e;
    if !Blocks(o, e) {
      IncrementVisitsNext(o, fs, true);
    }
  }

  lemma StartIsSettled(o: Options, es: seq<Entry>)
    ensures IsSettled([es]) && Ahead(o, [es]) == Preorder(o, es, 0)
  {
    assert [es][..0] == [];
    assert Preorder(o, es, 0) + Rest(o, []) == Preorder(o, es, 0);
  }

  /** Incrementing from the start comes to the end if and only if every directory on the way
      opens; otherwise it comes to the first one that does not, and stays there. */
  lemma WalkEndsIff(o: Options, es: seq<Entry>)
    ensures IsSettled([es])
    ensures (exists n :: AtEnd(Walked(o, [es], n))) <==> !MeetsRefusal(o, es)
    ensures MeetsRefusal(o, es) ==>
              var vs := Preorder(o, es, 0);
              var k := FirstBlocked(o, vs);
              k < |vs| && Refuses(o, vs[k].entry) && forall n :: n >= k ==> Ahead(o, Walked(o, [es], n)) == vs[k..]
  {
    UnblockedIff(o, es);
    StartIsSettled(o, es);
    var vs := Preorder(o, es, 0);
    var k := FirstBlocked(o, vs);
    if Unblocked(o, es) {
      UnblockedVisits(o, es, 0);
      WalkedIs(o, [es], |vs|);
      EndHasNothingAhead(o, Walked(o, [es], |vs|));
      assert AtEnd(Walked(o, [es], |vs|));
    } else {
      if k == |vs| {
        VisitsUnblocked(o, es, 0);
      }
      forall n
        ensures !AtEnd(Walked(o, [es], n)) && (n >= k ==> Ahead(o, Walked(o, [es], n)) == vs[k..])
      {
        WalkedIs(o, [es], n);
        EndHasNothingAhead(o, Walked(o, [es], n));
      }
    }
  }

  // ---------- the preorder lists every entry once ----------

  /** The way to an entry: an index into each listing. */
  type Address = seq<nat>

  predicate IsAddress(o: Options, es: seq<Entry>, a: Address)
    decreases |a|
  {
    && a != [] && a[0] < |es|
    && (|a| > 1 ==> Descends(o, es[a[0]]) && es[a[0]].opening.Opens? && IsAddress(o, es[a[0]].children, a[1..]))
  }

  function EntryAt(o: Options, es: seq<Entry>, a: Address): Entry
    requires IsAddress(o, es, a)
    decreases |a|
  {
    if |a| == 1 then es[a[0]] else EntryAt(o, es[a[0]].children, a[1..])
  }

  function Under(k: nat, addresses: seq<Address>): (r: seq<Address>)
    ensures |r| == |addresses| && forall i :: 0 <= i < |r| ==> r[i] == [k] + addresses[i]
  {
    seq(|addresses|, i requires 0 <= i < |addresses| => [k] + addresses[i])
  }

  /** The addresses in the order of the preorder; `k` is the index of the first entry. */
  function Addresses(o: Options, es: seq<Entry>, k: nat): seq<Address> {
    if es == [] then []
    else [[k]] + (Under(k, Inside(o, es[0])) + Addresses(o, es[1..], k + 1))
  }

  function Inside(o: Options, e: Entry): seq<Address> {
    if Descends(o, e) && e.opening.Opens? then Addresses(o, e.children, 0) else []
  }

  /** Dictionary order. */
  predicate Before(a: Address, b: Address)
    decreases |a|
  {
    b != [] && (a == [] || a[0] < b[0] || (a[0] == b[0] && Before(a[1..], b[1..])))
  }

  predicate Increasing(s: seq<Address>) {
    forall i, j :: 0 <= i < j < |s| ==> Before(s[i], s[j])
  }

  lemma {:induction false} AddressesStart(o: Options, es: seq<Entry>, k: nat)
    ensures forall i :: 0 <= i < |Addresses(o, es, k)| ==>
              Addresses(o, es, k)[i] != [] && k <= Addresses(o, es, k)[i][0] < k + |es|
  {
    if es != [] {
      AddressesStart(o, es[1..], k + 1);
    }
  }

  lemma UnderIncreasing(k: nat, s: seq<Address>)
    requires Increasing(s)
    ensures Increasing(Under(k, s))
  {
    forall i, j | 0 <= i < j < |s|
      ensures Before(Under(k, s)[i], Under(k, s)[j])
    {
      assert Before(s[i], s[j]);
      assert ([k] + s[i])[1..] == s[i] && ([k] + s[j])[1..] == s[j];
    }
  }

  /** Each address comes once, in dictionary order. */
  lemma {:induction false} AddressesIncrease(o: Options, es: seq<Entry>, k: nat)
    ensures Increasing(Addresses(o, es, k))
  {
    if es != [] {
      if Descends(o, es[0]) && es[0].opening.Opens? {
        AddressesIncrease(o, es[0].children, 0);
      }
      AddressesIncrease(o, es[1..], k + 1);
      AddressesStart(o, es[1..], k + 1);
      InsideNotEmpty(o, es[0]);
      var inner, outer := Under(k, Inside(o, es[0])), Addresses(o, es[1..], k + 1);
      UnderIncreasing(k, Inside(o, es[0]));
      JoinIncreasing(k, inner, outer);
    }
  }

  lemma InsideNotEmpty(o: Options, e: Entry)
    ensures forall i :: 0 <= i < |Inside(o, e)| ==> Inside(o, e)[i] != []
  {
    if Descends(o, e) && e.opening.Opens? {
      AddressesStart(o, e.children, 0);
    }
  }

  lemma JoinIncreasing(k: nat, inner: seq<Address>, outer: seq<Address>)
    requires Increasing(inner) && Increasing(outer)
    requires forall i :: 0 <= i < |inner| ==> |inner[i]| > 1 && inner[i][0] == k
    requires forall i :: 0 <= i < |outer| ==> outer[i] != [] && outer[i][0] > k
    ensures Increasing([[k]] + (inner + outer))
  {
    var s := [[k]] + (inner + outer);
    forall i, j | 0 <= i < j < |s|
      ensures Before(s[i], s[j])
    {
      if i == 0 {
        if j <= |inner| {
          assert s[j] == inner[j - 1];
          assert Before([k][1..], inner[j - 1][1..]);
        } else {
          assert s[j] == outer[j - 1 - |inner|];
        }
      } else if j <= |inner| {
        assert s[i] == inner[i - 1] && s[j] == inner[j - 1];
      } else if i <= |inner| {
        assert s[i] == inner[i - 1] && s[j] == outer[j - 1 - |inner|];
      } else {
        assert s[i] == outer[i - 1 - |inner|] && s[j] == outer[j - 1 - |inner|];
      }
    }
  }

  /** The visit for an address: its entry and, as depth, its nesting. */
  ghost predicate IsVisitOf(o: Options, es: seq<Entry>, depth: nat, a: Address, v: Visit) {
    IsAddress(o, es, a) && v == Visit(EntryAt(o, es, a), depth + |a| - 1)
  }

  ghost predicate Match(o: Options, es: seq<Entry>, depth: nat, s: seq<Address>, vs: seq<Visit>) {
    |s| == |vs| && forall j :: 0 <= j < |s| ==> IsVisitOf(o, es, depth, s[j], vs[j])
  }

  lemma MatchUnder(o: Options, es: seq<Entry>, depth: nat, k: nat)
    requires k < |es| && Match(o, Listing(es[k]), depth + 1, Inside(o, es[k]), Below(o, es[k], depth))
    ensures Match(o, es, depth, Under(k, Inside(o, es[k])), Below(o, es[k], depth))
  {
    var s, vs := Inside(o, es[k]), Below(o, es[k], depth);
    forall j | 0 <= j < |s|
      ensures IsVisitOf(o, es, depth, Under(k, s)[j], vs[j])
    {
      assert IsVisitOf(o, Listing(es[k]), depth + 1, s[j], vs[j]);
      var a := [k] + s[j];
      assert a[1..] == s[j];
    }
  }

  lemma MatchJoin(o: Options, es: seq<Entry>, depth: nat, s: seq<Address>, t: seq<Address>, vs: seq<Visit>, ws: seq<Visit>)
    requires Match(o, es, depth, s, vs) && Match(o, es, depth, t, ws)
    ensures Match(o, es, depth, s + t, vs + ws)
  {
    forall j | 0 <= j < |s + t|
      ensures IsVisitOf(o, es, depth, (s + t)[j], (vs + ws)[j])
    {
      if j < |s| {
        assert IsVisitOf(o, es, depth, s[j], vs[j]);
      } else {
        assert IsVisitOf(o, es, depth, t[j - |s|], ws[j - |s|]);
      }
    }
  }

  lemma {:induction false} PreorderMatchesFrom(o: Options, es: seq<Entry>, depth: nat, k: nat, rest: seq<Entry>)
    requires k <= |es| && rest == es[k..]
    ensures Match(o, es, depth, Addresses(o, rest, k), Preorder(o, rest, depth))
    decreases rest
  {
    if rest != [] {
      var e := rest[0];
      assert e == es[k];
      if Descends(o, e) && e.opening.Opens? {
        assert e.children == e.children[0..];
        PreorderMatchesFrom(o, e.children, depth + 1, 0, e.children);
      }
      MatchUnder(o, es, depth, k);
      PreorderMatchesFrom(o, es, depth, k + 1, rest[1..]);
      MatchJoin(o, es, depth, Under(k, Inside(o, e)), Addresses(o, rest[1..], k + 1),
                Below(o, e, depth), Preorder(o, rest[1..], depth));
      assert IsVisitOf(o, es, depth, [k], Visit(e, depth));
      MatchJoin(o, es, depth, [[k]], Under(k, Inside(o, e)) + Addresses(o, rest[1..], k + 1),
                [Visit(e, depth)], Below(o, e, depth) + Preorder(o, rest[1..], depth));
    }
  }

  lemma ListedUnder(k: nat, s: seq<Address>, a: Address)
    requires a in s
    ensures [k] + a in Under(k, s)
  {
    var j :| 0 <= j < |s| && s[j] == a;
    assert Under(k, s)[j] == [k] + a;
  }

  lemma {:induction false} EveryAddressListed(o: Options, es: seq<Entry>, k: nat, rest: seq<Entry>, a: Address)
    requires k <= |es| && rest == es[k..] && IsAddress(o, es, a) && a[0] >= k
    ensures a in Addresses(o, rest, k)
    decreases |a|, |rest|
  {
    if a[0] > k {
      EveryAddressListed(o, es, k + 1, rest[1..], a);
    } else {
      assert a == [k] + a[1..];
      assert Addresses(o, rest, k)[0] == [k];
      assert rest[0] == es[k];
      if |a| > 1 {
        var inner := es[k].children;
        assert inner == inner[0..];
        EveryAddressListed(o, inner, 0, inner, a[1..]);
        ListedUnder(k, Inside(o, es[k]), a[1..]);
      } else {
        assert a == [k];
      }
    }
  }

  /** The preorder visits exactly the addresses of the tree, each once and in dictionary
      order, with the right entry and the nesting as depth. */
  lemma PreorderVisitsEachOnce(o: Options, es: seq<Entry>)
    ensures Match(o, es, 0, Addresses(o, es, 0), Preorder(o, es, 0))
    ensures Increasing(Addresses(o, es, 0))
    ensures forall a :: a in Addresses(o, es, 0) <==> IsAddress(o, es, a)
  {
    assert es == es[0..];
    PreorderMatchesFrom(o, es, 0, 0, es);
    AddressesIncrease(o, es, 0);
    forall a
      ensures a in Addresses(o, es, 0) <==> IsAddress(o, es, a)
    {
      if a in Addresses(o, es, 0) {
        var j :| 0 <= j < |Addresses(o, es, 0)| && Addresses(o, es, 0)[j] == a;
        assert IsVisitOf(o, es, 0, a, Preorder(o, es, 0)[j]);
      }
      if IsAddress(o, es, a) {
        EveryAddressListed(o, es, 0, es, a);
      }
    }
  }

  // ---------- which entries those are ----------

  /** An index path into the children, whatever they are. */
  predicate IsPlace(es: seq<Entry>, a: Address)
    decreases |a|
  {
    a != [] && a[0] < |es| && (|a| > 1 ==> IsPlace(es[a[0]].children, a[1..]))
  }

  function EntryOf(es: seq<Entry>, a: Address): Entry
    requires IsPlace(es, a)
    decreases |a|
  {
    if |a| == 1 then es[a[0]] else EntryOf(es[a[0]].children, a[1..])
  }

  lemma {:induction false} PrefixIsPlace(es: seq<Entry>, a: Address, k: nat)
    requires IsPlace(es, a) && 0 < k <= |a|
    ensures IsPlace(es, a[..k])
    ensures k > 1 ==> && IsPlace(es[a[0]].children, a[1..][..k - 1])
                      && EntryOf(es, a[..k]) == EntryOf(es[a[0]].children, a[1..][..k - 1])
    ensures k == 1 ==> EntryOf(es, a[..k]) == es[a[0]]
    decreases |a|
  {
    if k > 1 {
      assert a[..k][1..] == a[1..][..k - 1];
      PrefixIsPlace(es[a[0]].children, a[1..], k - 1);
    }
  }

  /** The entry is a directory that is gone into and opens. */
  predicate LetsIn(o: Options, e: Entry) {
    e.isDirectory && e.opening == Opens && (e.isSymlink ==> o.followSymlinks)
  }

  predicate IsOpenAt(o: Options, es: seq<Entry>, a: Address, k: nat) {
    0 < k <= |a| && IsPlace(es, a[..k]) ==> LetsIn(o, EntryOf(es, a[..k]))
  }

  /** A place is visited if and only if every entry above it is a directory that opens and no
      symbolic link, unless links are followed. */
  lemma {:induction false} IsAddressIff(o: Options, es: seq<Entry>, a: Address)
    ensures IsAddress(o, es, a) <==> IsPlace(es, a) && forall k :: 0 < k < |a| ==> IsOpenAt(o, es, a, k)
    ensures IsAddress(o, es, a) ==> EntryAt(o, es, a) == EntryOf(es, a)
    decreases |a|
  {
    if |a| > 1 && a[0] < |es| {
      IsAddressIff(o, es[a[0]].children, a[1..]);
      if IsPlace(es, a) {
        OpenBelow(o, es, a);
      }
    }
  }

  lemma OpenBelow(o: Options, es: seq<Entry>, a: Address)
    requires |a| > 1 && IsPlace(es, a)
    ensures (forall k :: 0 < k < |a| ==> IsOpenAt(o, es, a, k)) <==>
            LetsIn(o, es[a[0]]) && forall k :: 0 < k < |a| - 1 ==> IsOpenAt(o, es[a[0]].children, a[1..], k)
  {
    forall k | 0 < k < |a|
      ensures IsOpenAt(o, es, a, k) <==> if k == 1 then LetsIn(o, es[a[0]]) else IsOpenAt(o, es[a[0]].children, a[1..], k - 1)
    {
      PrefixIsPlace(es, a, k);
      if k > 1 {
        PrefixIsPlace(es[a[0]].children, a[1..], k - 1);
      }
    }
    if forall k :: 0 < k < |a| ==> IsOpenAt(o, es, a, k) {
      assert IsOpenAt(o, es, a, 1);
      forall k | 0 < k < |a| - 1
        ensures IsOpenAt(o, es[a[0]].children, a[1..], k)
      {
        assert IsOpenAt(o, es, a, k + 1);
      }
    }
  }

  /** Opening the directory at a place is tried and fails, and is not to be skipped. */
  predicate Refuses(o: Options, e: Entry) {
    && e.isDirectory && (e.isSymlink ==> o.followSymlinks)
    && (e.opening == Fails || (e.opening == Denied && !o.skipDenied))
  }

  predicate IsReached(o: Options, es: seq<Entry>, a: Address) {
    IsPlace(es, a) && forall k :: 0 < k < |a| ==> IsOpenAt(o, es, a, k)
  }

  /** A visit of the place. */
  predicate IsVisitAt(es: seq<Entry>, a: Address, v: Visit) {
    IsPlace(es, a) && v == Visit(EntryOf(es, a), |a| - 1)
  }

  /** The visits are those of exactly the places reached, each once, in dictionary order. */
  ghost predicate VisitsPlaces(o: Options, es: seq<Entry>, places: seq<Address>, vs: seq<Visit>) {
    && |places| == |vs| && Increasing(places)
    && (forall j :: 0 <= j < |vs| ==> IsVisitAt(es, places[j], vs[j]))
    && (forall a :: a in places <==> IsReached(o, es, a))
  }

  lemma PreorderVisitsPlaces(o: Options, es: seq<Entry>)
    ensures VisitsPlaces(o, es, Addresses(o, es, 0), Preorder(o, es, 0))
  {
    var places, vs := Addresses(o, es, 0), Preorder(o, es, 0);
    PreorderVisitsEachOnce(o, es);
    forall j | 0 <= j < |vs|
      ensures IsVisitAt(es, places[j], vs[j])
    {
      assert IsVisitOf(o, es, 0, places[j], vs[j]);
      IsAddressIff(o, es, places[j]);
    }
    forall a
      ensures a in places <==> IsReached(o, es, a)
    {
      IsAddressIff(o, es, a);
    }
  }

  /** Without the option to follow them, nothing below a symbolic link is visited. */
  lemma LinksAreNotFollowed(o: Options, es: seq<Entry>, a: Address, k: nat)
    requires !o.followSymlinks && IsPlace(es, a) && 0 < k < |a| && IsPlace(es, a[..k]) && EntryOf(es, a[..k]).isSymlink
    ensures a !in Addresses(o, es, 0)
  {
    PreorderVisitsPlaces(o, es);
    assert !IsOpenAt(o, es, a, k);
  }

  ghost predicate MeetsRefusal(o: Options, es: seq<Entry>) {
    exists a :: IsReached(o, es, a) && Refuses(o, EntryOf(es, a))
  }

  /** A walk meets an error if and only if a directory that it reaches refuses to open. */
  lemma UnblockedIff(o: Options, es: seq<Entry>)
    ensures !Unblocked(o, es) <==> MeetsRefusal(o, es)
  {
    var places, vs := Addresses(o, es, 0), Preorder(o, es, 0);
    PreorderVisitsPlaces(o, es);
    if Unblocked(o, es) {
      UnblockedVisits(o, es, 0);
      forall a | IsReached(o, es, a)
        ensures !Refuses(o, EntryOf(es, a))
      {
        var j :| 0 <= j < |places| && places[j] == a;
        assert IsVisitAt(es, a, vs[j]);
      }
    } else {
      if AllUnblocked(o, vs) {
        VisitsUnblocked(o, es, 0);
      }
      var j :| 0 <= j < |vs| && Blocks(o, vs[j].entry);
      assert IsVisitAt(es, places[j], vs[j]);
      assert places[j] in places;
    }
  }

  // ---------- the code ----------

  class RecursiveDirectoryIterator {
    const options: Options
    var stack: Frames
    var pending: bool

    ghost predicate Valid()
      reads this
    {
      IsSettled(stack)
    }

    ghost function ToVisit(): seq<Visit>
      requires Valid()
      reads this
    {
      Remaining(options, stack, pending)
    }

    constructor (entries: seq<Entry>, options: Options)
      ensures Valid() && this.options == options && stack == [entries] && pending
      ensures ToVisit() == Preorder(options, entries, 0)
    {
      this.options := options;
      this.stack := [entries];
      this.pending := true;
      new;
      assert stack[..0] == [];
      assert Preorder(options, entries, 0) + Rest(options, []) == Preorder(options, entries, 0);
    }

    method Depth() returns (d: int)
      requires Valid()
      ensures d == |stack| - 1
    {
      d := |stack| - 1;
    }

    /** The loop that leaves exhausted listings. */
    method LeaveExhausted()
      requires IsStack(stack)
      modifies this`stack
      ensures stack == Settle(old(stack))
    {
      while |stack| - 1 != 0 && AtEnd(stack)
        invariant IsStack(stack) && Settle(stack) == Settle(old(stack))
        decreases |stack|
      {
        stack := stack[..|stack| - 1];
        stack := Advance(stack);
      }
    }

    /** `increment`: on success exactly one visit is behind; an error changes nothing but
        the recursion flag. */
    method Increment() returns (error: bool)
      requires Valid() && !AtEnd(stack)
      modifies this
      ensures Valid() && pending
      ensures error <==> old(pending) && Refuses(options, old(stack[|stack| - 1][0]))
      ensures stack == Incremented(options, old(stack), old(pending))
      ensures error ==> stack == old(stack)
      ensures !error ==> old(ToVisit()) == [Visit(old(stack[|stack| - 1][0]), old(|stack| - 1))] + ToVisit()
    {
      var e := stack[|stack| - 1][0];
      error := false;
      if pending && Descends(options, e) {
        error := Blocks(options, e);
        stack := stack + [Listing(e)];
      } else {
        stack := Advance(stack);
      }
      if !error {
        LeaveExhausted();
      } else {
        stack := stack[..|stack| - 1];
        assert stack == old(stack);
      }
      assert stack == Incremented(options, old(stack), pending);
      if !error {
        IncrementVisitsNext(options, old(stack), pending);
      }
      pending := true;
    }

    /** `pop`: what remains is what lies behind the whole current directory, but the
        recursion flag is left as it is. */
    method Pop()
      requires Valid()
      modifies this
      ensures Valid()
      ensures stack == Popped(old(stack))
      ensures old(|stack|) > 1 ==> pending == old(pending)
      ensures Remaining(options, stack, true) == Rest(options, old(stack)[..|old(stack)| - 1])
    {
      PopLeavesDirectory(options, stack);
      if |stack| - 1 == 0 {
        stack := [[]];
        pending := true;
      } else {
        stack := stack[..|stack| - 1];
        stack := Advance(stack);
        LeaveExhausted();
      }
    }

    method DisableRecursionPending()
      requires Valid()
      modifies this`pending
      ensures Valid() && !pending
    {
      pending := false;
    }
  }

  lemma MoveFirst(done: seq<Visit>, vs: seq<Visit>)
    requires vs != []
    ensures done + [vs[0]] + vs[1..] == done + vs && (done + vs)[|done|] == vs[0]
  {
    assert vs == [vs[0]] + vs[1..];
  }

  /** Iterating with `increment` until the end or an error: all visits, or those up to the
      first directory that does not open. */
  method WalkAll(entries: seq<Entry>, options: Options) returns (visits: seq<Visit>, error: bool)
    ensures error <==> MeetsRefusal(options, entries)
    ensures visits == UpToBlocked(options, Preorder(options, entries, 0))
    ensures if error then AreUpToRefusal(options, visits) else visits == Preorder(options, entries, 0)
  {
    ghost var vs := Preorder(options, entries, 0);
    visits, error := [], false;
    var it := new RecursiveDirectoryIterator(entries, options);
    while !AtEnd(it.stack) && !error
      invariant fresh(it) && it.Valid() && it.pending && it.options == options
      invariant !error ==> visits + it.ToVisit() == vs && AllUnblocked(options, visits)
      invariant error ==> IsBlockedAt(options, vs, visits)
      decreases !error, |it.ToVisit()|
    {
      AheadIs(options, it.stack);
      MoveFirst(visits, it.ToVisit());
      var d := it.Depth();
      visits := visits + [Visit(it.stack[|it.stack| - 1][0], d)];
      error := it.Increment();
    }
    if error {
      BlockedWalk(options, entries, visits);
    } else {
      EndHasNothingAhead(options, it.stack);
      QuietWalk(options, entries);
    }
  }

  /** The last of the visits, and only it, refuses to open. */
  predicate AreUpToRefusal(o: Options, visits: seq<Visit>) {
    visits != [] && forall i :: 0 <= i < |visits| ==> (Refuses(o, visits[i].entry) <==> i == |visits| - 1)
  }

  /** The last of the visits, and only it, is blocked. */
  ghost predicate IsBlockedAt(o: Options, vs: seq<Visit>, visits: seq<Visit>) {
    && visits != [] && visits <= vs
    && AllUnblocked(o, visits[..|visits| - 1]) && Blocks(o, visits[|visits| - 1].entry)
  }

  lemma BlockedWalk(o: Options, es: seq<Entry>, visits: seq<Visit>)
    requires IsBlockedAt(o, Preorder(o, es, 0), visits)
    ensures MeetsRefusal(o, es)
    ensures visits == UpToBlocked(o, Preorder(o, es, 0)) && AreUpToRefusal(o, visits)
  {
    BlockedAtIs(o, es, visits);
    UnblockedIff(o, es);
    assert forall i :: 0 <= i < |visits| - 1 ==> visits[..|visits| - 1][i] == visits[i];
  }

  lemma QuietWalk(o: Options, es: seq<Entry>)
    requires AllUnblocked(o, Preorder(o, es, 0))
    ensures !MeetsRefusal(o, es)
    ensures UpToBlocked(o, Preorder(o, es, 0)) == Preorder(o, es, 0)
  {
    VisitsUnblocked(o, es, 0);
    UnblockedIff(o, es);
  }

  lemma BlockedAtIs(o: Options, es: seq<Entry>, visits: seq<Visit>)
    requires IsBlockedAt(o, Preorder(o, es, 0), visits)
    ensures !Unblocked(o, es) && visits == UpToBlocked(o, Preorder(o, es, 0))
  {
    var vs := Preorder(o, es, 0);
    FirstBlockedIs(o, vs, |visits| - 1);
    if Unblocked(o, es) {
      UnblockedVisits(o, es, 0);
    }
  }

  lemma {:induction false} FirstBlockedIs(o: Options, vs: seq<Visit>, k: nat)
    requires k < |vs| && AllUnblocked(o, vs[..k]) && Blocks(o, vs[k].entry)
    ensures FirstBlocked(o, vs) == k
  {
    if k > 0 {
      assert vs[..k][0] == vs[0];
      assert vs[1..][..k - 1] == vs[..k][1..];
      FirstBlockedIs(o, vs[1..], k - 1);
    }
  }
}
