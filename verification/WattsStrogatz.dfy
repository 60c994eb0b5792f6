/**
  The links of a federate in the Watts-Strogatz benchmark (`WattsStrogatzFederate.hpp`): half
  of a ring lattice whose links are then exchanged at random with the nodes not linked to.
  */
module WattsStrogatz {
  import opened Wrappers

  /** One decision of the rewiring loop: keep the link, or exchange it with an available one. */
  datatype Draw = Keep | Pick(link: nat)

  // ---------- the nodes ----------

  /** The node `d + 1` places to the right of `index` on the ring of `n` nodes. */
  function Node(index: nat, n: nat, d: nat): (x: nat)
    requires index < n && d < n - 1
    ensures x < n && x != index
  {
    if index + 1 + d < n then index + 1 + d else index + 1 + d - n
  }

  /** The ring lattice: the `k` nodes to the right. */
  function Lattice(index: nat, n: nat, k: nat): (links: seq<nat>)
    requires index < n && k <= n - 1
    ensures |links| == k
  {
    seq(k, i requires 0 <= i < k => Node(index, n, i))
  }

  /** The other nodes, going to the left. */
  function Available(index: nat, n: nat, k: nat): (links: seq<nat>)
    requires index < n && k <= n - 1
    ensures |links| == n - k - 1
  {
    seq(n - k - 1, i requires 0 <= i < n - k - 1 => Node(index, n, n - 2 - i))
  }

  predicate NoDuplicates(s: seq<nat>) {
    forall i, j :: 0 <= i < j < |s| ==> s[i] != s[j]
  }

  /** `s` lists every node but `index`, each once. */
  predicate ListsOthers(s: seq<nat>, index: nat, n: nat) {
    && NoDuplicates(s)
    && (forall x :: x in s ==> x < n && x != index)
    && (forall x :: 0 <= x < n && x != index ==> x in s)
  }

  /** At the start the two lists together have every other node once. */
  lemma StartListsOthers(index: nat, n: nat, k: nat)
    requires index < n && k <= n - 1
    ensures ListsOthers(Lattice(index, n, k) + Available(index, n, k), index, n)
  {
    var s := Lattice(index, n, k) + Available(index, n, k);
    assert forall p :: 0 <= p < |s| ==> s[p] == Node(index, n, if p < k then p else n - 2 - (p - k));
    forall x | 0 <= x < n && x != index
      ensures x in s
    {
      var d := if x > index then x - index - 1 else x + n - index - 1;
      assert Node(index, n, d) == x;
      assert s[if d < k then d else k + (n - 2 - d)] == x;
    }
  }

  // ---------- rewiring ----------

  /** The lists after the links from number `i` on were decided. */
  function Rewire(cur: seq<nat>, avail: seq<nat>, draws: seq<Draw>, i: nat): (r: (seq<nat>, seq<nat>))
    requires i <= |cur| && InRange(draws, |cur|, |avail|)
    ensures |r.0| == |cur| && |r.1| == |avail|
    decreases |cur| - i
  {
    if i == |cur| then (cur, avail)
    else if draws[i].Keep? then Rewire(cur, avail, draws, i + 1)
    else Rewire(cur[i := avail[draws[i].link]], avail[draws[i].link := cur[i]], draws, i + 1)
  }

  /** One decision for each link, each pick among the `m` available nodes. */
  predicate InRange(draws: seq<Draw>, k: nat, m: nat) {
    |draws| == k && forall i :: 0 <= i < k && draws[i].Pick? ==> draws[i].link < m
  }

  /** An exchange between the two lists loses no node and doubles none. */
  lemma ExchangeListsOthers(cur: seq<nat>, avail: seq<nat>, i: nat, j: nat, index: nat, n: nat)
    requires i < |cur| && j < |avail| && ListsOthers(cur + avail, index, n)
    ensures ListsOthers(cur[i := avail[j]] + avail[j := cur[i]], index, n)
  {
    var s, t := cur + avail, cur[i := avail[j]] + avail[j := cur[i]];
    assert t == s[i := s[|cur| + j]][|cur| + j := s[i]];
    forall x
      ensures x in s <==> x in t
    {
      if p :| 0 <= p < |s| && s[p] == x {
        assert t[if p == i then |cur| + j else if p == |cur| + j then i else p] == x;
      }
      if p :| 0 <= p < |t| && t[p] == x {
        assert s[if p == i then |cur| + j else if p == |cur| + j then i else p] == x;
      }
    }
  }

  /** So the two lists always have every other node once between them. */
  lemma {:induction false} RewireListsOthers(cur: seq<nat>, avail: seq<nat>, draws: seq<Draw>, i: nat, index: nat, n: nat)
    requires i <= |cur| && InRange(draws, |cur|, |avail|) && ListsOthers(cur + avail, index, n)
    ensures var (links, rest) := Rewire(cur, avail, draws, i);
            ListsOthers(links + rest, index, n)
    decreases |cur| - i
  {
    if i < |cur| {
      if draws[i].Keep? {
        RewireListsOthers(cur, avail, draws, i + 1, index, n);
      } else {
        var j := draws[i].link;
        ExchangeListsOthers(cur, avail, i, j, index, n);
        RewireListsOthers(cur[i := avail[j]], avail[j := cur[i]], draws, i + 1, index, n);
      }
    }
  }

  /** What the degree promises: `k` different nodes, none of them this one. */
  predicate GoodLinks(links: seq<nat>, index: nat, n: nat, k: nat) {
    |links| == k && NoDuplicates(links) && forall x :: x in links ==> x < n && x != index
  }

  /** No link was rewired to a node that was then still linked to by a later link. */
  predicate NotStillTaken(links: seq<nat>, lattice: seq<nat>) {
    forall i, j :: 0 <= i < j < |links| && j < |lattice| ==> links[i] != lattice[j]
  }

  /** The decided part and the undecided part of the links. */
  predicate Agrees(links: seq<nat>, cur: seq<nat>, i: nat) {
    i <= |cur| == |links| && forall p :: 0 <= p < i ==> links[p] == cur[p]
  }

  lemma {:induction false} RewireKeepsDecided(cur: seq<nat>, avail: seq<nat>, draws: seq<Draw>, i: nat)
    requires i <= |cur| && InRange(draws, |cur|, |avail|)
    ensures Agrees(Rewire(cur, avail, draws, i).0, cur, i)
    decreases |cur| - i
  {
    if i < |cur| {
      if draws[i].Keep? {
        RewireKeepsDecided(cur, avail, draws, i + 1);
      } else {
        var j := draws[i].link;
        RewireKeepsDecided(cur[i := avail[j]], avail[j := cur[i]], draws, i + 1);
      }
    }
  }

  /** The links still undecided stay away from the links already decided. */
  predicate Ahead(links: seq<nat>, lattice: seq<nat>, i: nat) {
    forall p, q :: i <= p < q < |links| && q < |lattice| ==> links[p] != lattice[q]
  }

  lemma {:induction false} RewireStaysAhead(cur: seq<nat>, avail: seq<nat>, draws: seq<Draw>, i: nat)
    requires i <= |cur| && InRange(draws, |cur|, |avail|) && NoDuplicates(cur + avail)
    ensures Ahead(Rewire(cur, avail, draws, i).0, cur, i)
    decreases |cur| - i
  {
    if i < |cur| {
      var links := Rewire(cur, avail, draws, i).0;
      var s := cur + avail;
      assert forall p :: 0 <= p < |cur| ==> s[p] == cur[p];
      if draws[i].Keep? {
        RewireStaysAhead(cur, avail, draws, i + 1);
        RewireKeepsDecided(cur, avail, draws, i + 1);
      } else {
        var j := draws[i].link;
        var cur', avail' := cur[i := avail[j]], avail[j := cur[i]];
        assert s[|cur| + j] == avail[j];
        assert cur' + avail' == s[i := s[|cur| + j]][|cur| + j := s[i]];
        RewireStaysAhead(cur', avail', draws, i + 1);
        RewireKeepsDecided(cur', avail', draws, i + 1);
        assert links[i] == s[|cur| + j];
        assert forall q :: i < q < |cur| ==> cur'[q] == cur[q] == s[q] != s[|cur| + j];
      }
    }
  }

  /** The links that can come out are different nodes, none of them this one, and none that a
      later link still had when it was chosen. */
  lemma RewiredLinksAreGood(index: nat, n: nat, k: nat, draws: seq<Draw>)
    requires index < n && k <= n - 1 && InRange(draws, k, n - k - 1)
    ensures var links := Rewire(Lattice(index, n, k), Available(index, n, k), draws, 0).0;
            GoodLinks(links, index, n, k) && NotStillTaken(links, Lattice(index, n, k))
  {
    var cur, avail := Lattice(index, n, k), Available(index, n, k);
    StartListsOthers(index, n, k);
    RewireListsOthers(cur, avail, draws, 0, index, n);
    RewireStaysAhead(cur, avail, draws, 0);
    var (links, rest) := Rewire(cur, avail, draws, 0);
    assert forall p :: 0 <= p < |links| ==> (links + rest)[p] == links[p];
    assert forall x :: x in links ==> x in links + rest;
  }

  /** The part of `links` to be reached from number `i` on can be reached. */
  predicate Wanted(links: seq<nat>, cur: seq<nat>, i: nat, index: nat, n: nat) {
    GoodLinks(links, index, n, |cur|) && Agrees(links, cur, i) && Ahead(links, cur, i)
  }

  /** The draw that brings link number `i` to the wanted node. */
  lemma NextDraw(links: seq<nat>, cur: seq<nat>, avail: seq<nat>, i: nat, index: nat, n: nat) returns (draw: Draw)
    requires i < |cur| && Wanted(links, cur, i, index, n) && ListsOthers(cur + avail, index, n)
    ensures draw.Keep? ==> links[i] == cur[i]
    ensures draw.Pick? ==> draw.link < |avail| && avail[draw.link] == links[i]
  {
    if links[i] == cur[i] {
      return Keep;
    }
    var s := cur + avail;
    assert links[i] in links;
    assert links[i] in s;
    assert forall q :: 0 <= q < |cur| ==> s[q] == cur[q] != links[i];
    var p :| 0 <= p < |s| && s[p] == links[i];
    return Pick(p - |cur|);
  }

  /** Conversely, draws can be found for every such choice of links. */
  lemma {:induction false} DrawsFrom(links: seq<nat>, cur: seq<nat>, avail: seq<nat>, i: nat, index: nat, n: nat)
    returns (draws: seq<Draw>)
    requires Wanted(links, cur, i, index, n) && ListsOthers(cur + avail, index, n)
    ensures InRange(draws, |cur|, |avail|) && Rewire(cur, avail, draws, i).0 == links
    decreases |cur| - i
  {
    if i == |cur| {
      draws := seq(|cur|, _ => Keep);
    } else {
      var draw := NextDraw(links, cur, avail, i, index, n);
      if draw.Keep? {
        draws := DrawsFrom(links, cur, avail, i + 1, index, n);
        ghost var later := draws;
        draws := draws[i := Keep];
        RewireLooksAhead(cur, avail, draws, later, i + 1);
      } else {
        var j := draw.link;
        var cur', avail' := cur[i := avail[j]], avail[j := cur[i]];
        ExchangeListsOthers(cur, avail, i, j, index, n);
        draws := DrawsFrom(links, cur', avail', i + 1, index, n);
        ghost var later := draws;
        draws := draws[i := draw];
        RewireLooksAhead(cur', avail', draws, later, i + 1);
      }
    }
  }

  /** Only the draws from number `i` on matter. */
  lemma {:induction false} RewireLooksAhead(cur: seq<nat>, avail: seq<nat>, a: seq<Draw>, b: seq<Draw>, i: nat)
    requires i <= |cur| && InRange(a, |cur|, |avail|) && InRange(b, |cur|, |avail|)
    requires forall p :: i <= p < |cur| ==> a[p] == b[p]
    ensures Rewire(cur, avail, a, i) == Rewire(cur, avail, b, i)
    decreases |cur| - i
  {
    if i < |cur| {
      if a[i].Keep? {
        RewireLooksAhead(cur, avail, a, b, i + 1);
      } else {
        RewireLooksAhead(cur[i := avail[a[i].link]], avail[a[i].link := cur[i]], a, b, i + 1);
      }
    }
  }

  predicate Produces(draws: seq<Draw>, links: seq<nat>, index: nat, n: nat, k: nat)
    requires index < n && k <= n - 1
  {
    InRange(draws, k, n - k - 1) && Rewire(Lattice(index, n, k), Available(index, n, k), draws, 0).0 == links
  }

  /** Which links can come out, exactly. */
  lemma LinksCanComeOutIff(links: seq<nat>, index: nat, n: nat, k: nat)
    requires index < n && k <= n - 1
    ensures (GoodLinks(links, index, n, k) && NotStillTaken(links, Lattice(index, n, k))) <==>
            exists draws :: Produces(draws, links, index, n, k)
  {
    if draws :| Produces(draws, links, index, n, k) {
      RewiredLinksAreGood(index, n, k, draws);
    }
    if GoodLinks(links, index, n, k) && NotStillTaken(links, Lattice(index, n, k)) {
      StartListsOthers(index, n, k);
      var draws := DrawsFrom(links, Lattice(index, n, k), Available(index, n, k), 0, index, n);
      assert Produces(draws, links, index, n, k);
    }
  }

  /** The lattice is left as it is where no link is rewired. */
  lemma {:induction false} KeptLinksStay(cur: seq<nat>, avail: seq<nat>, draws: seq<Draw>, i: nat)
    requires i <= |cur| && InRange(draws, |cur|, |avail|) && forall p :: i <= p < |cur| ==> draws[p].Keep?
    ensures Rewire(cur, avail, draws, i).0 == cur
    decreases |cur| - i
  {
    if i < |cur| {
      KeptLinksStay(cur, avail, draws, i + 1);
    }
  }

  /** The last link before number `i` that took the available node at `j`, or -1. */
  function LastPick(draws: seq<Draw>, i: nat, j: nat): (p: int)
    requires i <= |draws|
    ensures -1 <= p < i && (p >= 0 ==> draws[p] == Pick(j))
    ensures forall m :: p < m < i ==> draws[m] != Pick(j)
  {
    if i == 0 then -1 else if draws[i - 1] == Pick(j) then i - 1 else LastPick(draws, i - 1, j)
  }

  /** The node at `j` when link number `i` is decided: the one a link was exchanged for last. */
  function NodeAt(cur: seq<nat>, avail: seq<nat>, draws: seq<Draw>, i: nat, j: nat): nat
    requires i <= |cur| == |draws| && j < |avail|
  {
    var p := LastPick(draws, i, j);
    if p >= 0 then cur[p] else avail[j]
  }

  function LinkAt(cur: seq<nat>, avail: seq<nat>, draws: seq<Draw>, i: nat): nat
    requires i < |cur| && InRange(draws, |cur|, |avail|)
  {
    if draws[i].Keep? then cur[i] else NodeAt(cur, avail, draws, i, draws[i].link)
  }

  /** How far the loop has come from `cur0` and `avail0` when `i` links are decided. */
  predicate IsMidway(cur0: seq<nat>, avail0: seq<nat>, cur: seq<nat>, avail: seq<nat>, draws: seq<Draw>, i: nat)
    requires InRange(draws, |cur0|, |avail0|)
  {
    && i <= |cur| == |cur0| && |avail| == |avail0|
    && (forall p :: 0 <= p < i ==> cur[p] == LinkAt(cur0, avail0, draws, p))
    && (forall p :: i <= p < |cur| ==> cur[p] == cur0[p])
    && (forall j :: 0 <= j < |avail| ==> avail[j] == NodeAt(cur0, avail0, draws, i, j))
  }

  lemma MidwayNext(cur0: seq<nat>, avail0: seq<nat>, cur: seq<nat>, avail: seq<nat>, draws: seq<Draw>, i: nat)
    requires InRange(draws, |cur0|, |avail0|) && i < |cur0| && IsMidway(cur0, avail0, cur, avail, draws, i)
    ensures draws[i].Keep? ==> IsMidway(cur0, avail0, cur, avail, draws, i + 1)
    ensures draws[i].Pick? ==>
              IsMidway(cur0, avail0, cur[i := avail[draws[i].link]], avail[draws[i].link := cur[i]], draws, i + 1)
  {
  }

  lemma {:induction false} RewireFrom(cur0: seq<nat>, avail0: seq<nat>, cur: seq<nat>, avail: seq<nat>, draws: seq<Draw>, i: nat)
    requires InRange(draws, |cur0|, |avail0|) && i <= |cur0| && IsMidway(cur0, avail0, cur, avail, draws, i)
    ensures var (links, rest) := Rewire(cur, avail, draws, i);
            IsMidway(cur0, avail0, links, rest, draws, |cur0|)
    decreases |cur0| - i
  {
    if i < |cur0| {
      MidwayNext(cur0, avail0, cur, avail, draws, i);
      if draws[i].Keep? {
        RewireFrom(cur0, avail0, cur, avail, draws, i + 1);
      } else {
        RewireFrom(cur0, avail0, cur[i := avail[draws[i].link]], avail[draws[i].link := cur[i]], draws, i + 1);
      }
    }
  }

  /** What each draw does: a link that is kept stays, and one that is exchanged gets the node
      drawn, which is the link last exchanged for it if there was one. */
  lemma RewireFollowsDraws(cur: seq<nat>, avail: seq<nat>, draws: seq<Draw>)
    requires InRange(draws, |cur|, |avail|)
    ensures var (links, rest) := Rewire(cur, avail, draws, 0);
            && (forall i :: 0 <= i < |cur| ==> links[i] == LinkAt(cur, avail, draws, i))
            && (forall j :: 0 <= j < |avail| ==> rest[j] == NodeAt(cur, avail, draws, |cur|, j))
  {
    RewireFrom(cur, avail, cur, avail, draws, 0);
  }

  // ---------- the setup of a federate ----------

  /** The lists to start from: the `k` nodes to the right on the ring, and the others to the
      left. */
  lemma StartIsRing(index: nat, n: nat, k: nat)
    requires index < n && k <= n - 1
    ensures forall i :: 0 <= i < k ==> Lattice(index, n, k)[i] == (index + 1 + i) % n
    ensures forall i :: 0 <= i < n - k - 1 ==> Available(index, n, k)[i] == (index + n - 1 - i) % n
  {
    forall i | 0 <= i < k
      ensures Lattice(index, n, k)[i] == (index + 1 + i) % n
    {
      Wraps(index, n, i + 1);
    }
    forall i | 0 <= i < n - k - 1
      ensures Available(index, n, k)[i] == (index + n - 1 - i) % n
    {
      Wraps(index, n, n - 1 - i);
    }
  }

  lemma Wraps(index: nat, n: nat, i: nat)
    requires index < n && 1 <= i <= n - 1
    ensures (index + i) % n == Node(index, n, i - 1)
  {
    var x := index + i;
    if x >= n {
      RemainderIs(x, n, 1, x - n);
    } else {
      RemainderIs(x, n, 0, x);
    }
  }

  lemma RemainderIs(x: nat, n: nat, q: nat, r: nat)
    requires 0 <= r < n && x == q * n + r && q <= 1
    ensures x % n == r
  {
  }

  /** Half of a ring lattice. */
  method RingLattice(index: nat, n: nat, k: nat) returns (cur: seq<nat>)
    requires index < n && k <= n - 1
    ensures cur == Lattice(index, n, k)
  {
    cur := [];
    var i := 1;
    while i <= k
      invariant 1 <= i <= k + 1
      invariant |cur| == i - 1 && forall p :: 0 <= p < i - 1 ==> cur[p] == Node(index, n, p)
    {
      Wraps(index, n, i);
      cur := cur + [(index + i) % n];
      i := i + 1;
    }
  }

  /** The links to choose from when rewiring. */
  method AvailableLinks(index: nat, n: nat, k: nat) returns (avail: seq<nat>)
    requires index < n && k <= n - 1
    ensures avail == Available(index, n, k)
  {
    avail := [];
    var i := 1;
    while i <= n - k - 1
      invariant 1 <= i <= n - k
      invariant |avail| == i - 1 && forall p :: 0 <= p < i - 1 ==> avail[p] == Node(index, n, n - 2 - p)
    {
      var edge := index - i;
      if edge < 0 {
        edge := edge + n;
      }
      avail := avail + [edge];
      i := i + 1;
    }
  }

  method RewireLinks(cur0: seq<nat>, avail0: seq<nat>, draws: seq<Draw>) returns (cur: seq<nat>)
    requires InRange(draws, |cur0|, |avail0|)
    ensures cur == Rewire(cur0, avail0, draws, 0).0
  {
    cur := cur0;
    var avail, i := avail0, 0;
    while i < |cur|
      invariant i <= |cur| == |cur0| && |avail| == |avail0|
      invariant Rewire(cur, avail, draws, i) == Rewire(cur0, avail0, draws, 0)
    {
      if draws[i].Pick? {
        var newLink := draws[i].link;
        var tmp := avail[newLink];
        avail := avail[newLink := cur[i]];
        cur := cur[i := tmp];
      }
      i := i + 1;
    }
  }

  /** The links of federate `index` of `n`: refused unless the degree lies between one and
      the number of the others, and then `degree` different others whatever is drawn. A draw
      picks among at most `n - degree - 1` available nodes. */
  method SetUpLinks(index: nat, n: nat, degree: int, draws: seq<Draw>) returns (r: Result<seq<nat>>)
    requires index < n
    requires 1 <= degree <= n - 1 ==> InRange(draws, degree, n - degree - 1)
    ensures r.Ok? <==> 1 <= degree <= n - 1
    ensures r.Ok? ==> Produces(draws, r.value, index, n, degree) && GoodLinks(r.value, index, n, degree)
  {
    if degree < 1 || degree > n - 1 {
      return Err;
    }
    var cur := RingLattice(index, n, degree);
    var avail := AvailableLinks(index, n, degree);
    if avail != [] {
      cur := RewireLinks(cur, avail, draws);
    } else {
      KeptLinksStay(cur, avail, draws, 0);
    }
    RewiredLinksAreGood(index, n, degree, draws);
    return Ok(cur);
  }
}
