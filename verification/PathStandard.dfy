/**
  The normal form of section 30.10.8.1 of ISO C++17 as the standard gives it, by rewriting:
  dots are removed, then names followed by ".." in any order for as long as there are any,
  then ".." at a root, a separator behind a last "..", and "." is added if nothing is left.

  Whatever the order, the result is the normal form that the stack of names computes.
  */
module PathStandard {
  import opened PathView
  import opened PathNormal

  /** The names of a path and whether a separator follows the last one. */
  datatype Text = Text(names: seq<string>, slash: bool)

  // ---------- the steps ----------

  function WithoutDots(ns: seq<string>): seq<string> {
    if ns == [] then [] else (if ns[0] == DOT then [] else [ns[0]]) + WithoutDots(ns[1..])
  }

  /** Each dot goes with the separator behind it; the one in front of a last dot stays. */
  function DotsRemoved(t: Text): Text {
    var ns := WithoutDots(t.names);
    Text(ns, ns != [] && (t.slash || t.names[|t.names| - 1] == DOT))
  }

  /** A name followed by "..". */
  predicate PairAt(ns: seq<string>, i: nat) {
    i + 1 < |ns| && ns[i] != UP && ns[i + 1] == UP
  }

  /** The pair goes with the separator behind it; the one in front of a last pair stays. */
  function Cancelled(t: Text, i: nat): Text
    requires PairAt(t.names, i)
  {
    var ns := t.names[..i] + t.names[i + 2..];
    Text(ns, ns != [] && (t.slash || i + 2 == |t.names|))
  }

  /** Removing `n` pairs, one after another, leads from `t` to `end`. */
  ghost predicate CancelsTo(t: Text, end: Text, n: nat)
    decreases n
  {
    if n == 0 then t == end
    else exists i :: PairAt(t.names, i) && CancelsTo(Cancelled(t, i), end, n - 1)
  }

  predicate NoPairs(ns: seq<string>) {
    forall i :: 0 <= i < |ns| ==> !PairAt(ns, i)
  }

  function WithoutUps(ns: seq<string>): seq<string> {
    if ns == [] then [] else (if ns[0] == UP then [] else [ns[0]]) + WithoutUps(ns[1..])
  }

  /** The last three steps. */
  function Closed(v: View, t: Text): View {
    var ns := if v.dir then WithoutUps(t.names) else t.names;
    Finish(View(v.root, v.dir, ns, t.slash && ns != [] && ns[|ns| - 1] != UP))
  }

  // ---------- the names ----------

  /** Neither empty nor a dot. */
  predicate Words(ns: seq<string>) {
    forall i :: 0 <= i < |ns| ==> ns[i] != "" && ns[i] != DOT
  }

  /** Where names lead, above the start as well. */
  function Place(ns: seq<string>): Stack {
    Run(false, START, ns, false)
  }

  lemma {:induction false} DotsKeepPlace(st: Stack, ns: seq<string>)
    requires forall i :: 0 <= i < |ns| ==> ns[i] != ""
    ensures Words(WithoutDots(ns))
    ensures SamePlace(Run(false, st, WithoutDots(ns), false), Run(false, st, ns, false))
    decreases |ns|
  {
    if ns != [] {
      DotsKeepPlace(Step(false, st, ns[0], false), ns[1..]);
      if ns[0] == DOT {
        PlaceIgnoresSlash(false, st, Step(false, st, DOT, false), WithoutDots(ns[1..]));
        assert WithoutDots(ns) == WithoutDots(ns[1..]);
      } else {
        assert WithoutDots(ns)[1..] == WithoutDots(ns[1..]);
      }
    }
  }

  lemma CancelKeepsPlace(t: Text, i: nat)
    requires PairAt(t.names, i) && Words(t.names)
    ensures Words(Cancelled(t, i).names) && SamePlace(Place(Cancelled(t, i).names), Place(t.names))
  {
    var a, pair, b := t.names[..i], t.names[i..i + 2], t.names[i + 2..];
    var st := Place(a);
    assert t.names == a + (pair + b) && pair == [t.names[i], UP];
    RunAppend(false, START, a, pair + b, false);
    RunAppend(false, st, pair, b, false);
    RunAppend(false, START, a, b, false);
    BackAgain(st, t.names[i]);
    PlaceIgnoresSlash(false, st, Run(false, st, pair, false), b);
  }

  lemma BackAgain(st: Stack, n: string)
    requires n != "" && n != DOT && n != UP
    ensures SamePlace(Run(false, st, [n, UP], false), st)
  {
    var s1 := Step(false, st, n, false);
    assert [n, UP][1..] == [UP];
    assert Run(false, s1, [UP], false) == Step(false, s1, UP, false);
    assert Run(false, st, [n, UP], false) == Step(false, s1, UP, false);
    assert (st.names + [n])[..|st.names|] == st.names;
  }

  lemma {:induction false} CancelsKeepPlace(t: Text, end: Text, n: nat)
    requires Words(t.names) && CancelsTo(t, end, n)
    ensures Words(end.names) && SamePlace(Place(end.names), Place(t.names))
    ensures end.names != [] ==> t.names != [] && (EndsOpen(Tokenized(end)) <==> EndsOpen(Tokenized(t)))
    decreases n
  {
    if n > 0 {
      var i :| PairAt(t.names, i) && CancelsTo(Cancelled(t, i), end, n - 1);
      CancelKeepsPlace(t, i);
      if Cancelled(t, i).names != [] {
        CancelKeepsOpen(t, i);
      }
      CancelsKeepPlace(Cancelled(t, i), end, n - 1);
    }
  }

  function Tokenized(t: Text): seq<string> {
    NamesAndEnd(t.names, t.slash)
  }

  lemma CancelKeepsOpen(t: Text, i: nat)
    requires PairAt(t.names, i) && Cancelled(t, i).names != []
    ensures EndsOpen(Tokenized(Cancelled(t, i))) <==> EndsOpen(Tokenized(t))
  {
    var c := Cancelled(t, i);
    if i + 2 < |t.names| {
      assert c.names[|c.names| - 1] == t.names[|t.names| - 1];
    }
  }

  lemma DotsKeepOpen(t: Text)
    requires DotsRemoved(t).names != []
    ensures EndsOpen(Tokenized(DotsRemoved(t))) <==> EndsOpen(Tokenized(t))
  {
    LastWithoutDots(t.names);
  }

  lemma {:induction false} LastWithoutDots(ns: seq<string>)
    requires WithoutDots(ns) != []
    ensures ns[|ns| - 1] != DOT ==> WithoutDots(ns)[|WithoutDots(ns)| - 1] == ns[|ns| - 1]
  {
    if WithoutDots(ns[1..]) != [] {
      LastWithoutDots(ns[1..]);
    } else if |ns| > 1 {
      LastIsDot(ns[1..]);
    }
  }

  lemma {:induction false} LastIsDot(ns: seq<string>)
    requires ns != [] && WithoutDots(ns) == []
    ensures ns[|ns| - 1] == DOT
  {
    if |ns| > 1 {
      LastIsDot(ns[1..]);
    }
  }

  /** Names without pairs are some ".." and then none. */
  lemma {:induction false} NoPairsIs(ns: seq<string>)
    requires Words(ns) && NoPairs(ns)
    ensures ns == Ups(Place(ns).ups) + Place(ns).names && UP !in Place(ns).names
  {
    if ns != [] {
      var k := |ns| - 1;
      var a := ns[..k];
      assert ns == a + [ns[k]];
      forall i | 0 <= i < |a|
        ensures !PairAt(a, i)
      {
        assert !PairAt(ns, i);
      }
      NoPairsIs(a);
      RunSnoc(false, START, a, ns[k], false);
      assert Place(a).names != [] ==> a[k - 1] == Place(a).names[|Place(a).names| - 1];
      assert k > 0 ==> !PairAt(ns, k - 1);
      if ns[k] == UP {
        assert Ups(Place(a).ups) + [UP] == Ups(Place(a).ups + 1);
      }
    }
  }

  lemma {:induction false} WithoutUpsIs(k: nat, ns: seq<string>)
    requires UP !in ns
    ensures WithoutUps(Ups(k) + ns) == ns
    decreases k, |ns|
  {
    if k > 0 {
      assert (Ups(k) + ns)[1..] == Ups(k - 1) + ns;
      WithoutUpsIs(k - 1, ns);
    } else {
      assert Ups(0) + ns == ns;
      if ns != [] {
        WithoutUpsIs(0, ns[1..]);
        assert Ups(0) + ns[1..] == ns[1..];
      }
    }
  }

  /** At a root the same names are left; only the climbing is lost. */
  lemma {:induction false} RootKeepsNames(s: Stack, t: Stack, ns: seq<string>)
    requires s.names == t.names && s.ups == 0
    ensures Run(true, s, ns, false).names == Run(false, t, ns, false).names && Run(true, s, ns, false).ups == 0
    decreases |ns|
  {
    if ns != [] {
      RootKeepsNames(Step(true, s, ns[0], false), Step(false, t, ns[0], false), ns[1..]);
    }
  }

  // ---------- the result ----------

  lemma PlaceOfPath(v: Path)
    ensures var r := Run(v.dir, START, Tokens(v), false);
            && SamePlace(Run(false, START, Tokens(v), false), Place(v.names))
            && r.names == Place(v.names).names && r.ups == if v.dir then 0 else Place(v.names).ups
  {
    if v.slash {
      RunSnoc(false, START, v.names, "", false);
    } else {
      assert Tokens(v) == v.names;
    }
    if v.dir {
      RootKeepsNames(START, START, Tokens(v));
    }
  }

  /** In whatever order the pairs are removed, once there are none left the last steps give
      the normal form. */
  lemma RewritingGivesStandard(v: Path, end: Text, n: nat)
    requires v != EMPTY && CancelsTo(DotsRemoved(Text(v.names, v.slash)), end, n) && NoPairs(end.names)
    ensures Closed(v, end) == StandardNormal(v)
  {
    var t := Text(v.names, v.slash);
    DotsKeepPlace(START, v.names);
    CancelsKeepPlace(DotsRemoved(t), end, n);
    NoPairsIs(end.names);
    PlaceOfPath(v);
    WithoutUpsIs(Place(end.names).ups, Place(end.names).names);
    if end.names != [] {
      DotsKeepOpen(t);
    }
    SameEnd(v, end, Run(v.dir, START, Tokens(v), false));
  }

  lemma SameEnd(v: Path, end: Text, r: Stack)
    requires v != EMPTY && r == Run(v.dir, START, Tokens(v), false)
    requires (if v.dir then WithoutUps(end.names) else end.names) == Ups(r.ups) + r.names
    requires r.names != [] ==> end.names != [] && end.names[|end.names| - 1] == r.names[|r.names| - 1]
    requires UP !in r.names && Words(end.names)
    requires end.names != [] ==> (EndsOpen(Tokenized(end)) <==> EndsOpen(Tokens(v)))
    ensures Closed(v, end) == StandardNormal(v)
  {
  }

  /** And the pairs do come to an end. */
  lemma {:induction false} RewritingEnds(t: Text) returns (end: Text, n: nat)
    ensures CancelsTo(t, end, n) && NoPairs(end.names)
    decreases |t.names|
  {
    if NoPairs(t.names) {
      return t, 0;
    }
    var i :| 0 <= i < |t.names| && PairAt(t.names, i);
    end, n := RewritingEnds(Cancelled(t, i));
    n := n + 1;
    assert CancelsTo(t, end, n);
  }
}
