/**
  `path::lexically_relative` (section 30.10.8.4.11 of ISO C++17): appending the result to
  the base leads back to the path.
  */
module PathRelative {
  import opened PathText
  import opened PathView
  import opened PathIterator
  import opened PathCompose
  import opened PathNormal

  // ---------- the function, as coded ----------

  /** How many elements two lists have in common at the front. */
  function Common(a: seq<string>, b: seq<string>): (n: nat)
    ensures n <= |a| && n <= |b| && a[..n] == b[..n]
    ensures n < |a| && n < |b| ==> a[n] != b[n]
    decreases |a|
  {
    if a != [] && b != [] && a[0] == b[0] then
      var n := Common(a[1..], b[1..]);
      assert a[..1 + n] == [a[0]] + a[1..][..n] && b[..1 + n] == [b[0]] + b[1..][..n];
      1 + n
    else 0
  }

  /** The depth of the base's remaining elements. */
  function Depth(es: seq<string>): int
    decreases |es|
  {
    if es == [] then 0
    else (if es[0] == UP then -1 else if es[0] == DOT || es[0] == "" then 0 else 1) + Depth(es[1..])
  }

  /** What the comparison finds: equal lists, a base that climbs further than it comes down,
      or the levels to climb and the elements left. */
  datatype Route = Same | Outside | Steps(ups: nat, rest: seq<string>)

  function RouteBetween(a: seq<string>, b: seq<string>): Route {
    var n := Common(a, b);
    if n == |a| && n == |b| then Same
    else if Depth(b[n..]) < 0 then Outside
    else Steps(Depth(b[n..]), a[n..])
  }

  /** The two loops behind it. */
  function Written(r: Route): string {
    match r
    case Same => DOT
    case Outside => ""
    case Steps(k, rest) => Fold(Fold("", Ups(k), false), rest, false)
  }

  function LexicallyRelative(p: string, base: string): string {
    if RootName(p) != RootName(base) || IsAbsolute(p) != IsAbsolute(base)
       || (RootDirectory(p) == "" && RootDirectory(base) != "") then ""
    else Written(RouteBetween(ElementsFrom(p, 0), ElementsFrom(base, 0)))
  }

  // ---------- climbing and coming down ----------

  /** The place `m` levels up; above a root there is nothing. */
  function Pop(abs: bool, st: Stack, m: nat): Stack {
    if m <= |st.names| then Stack(st.ups, st.names[..|st.names| - m], false)
    else Stack(if abs then st.ups else st.ups + (m - |st.names|), [], false)
  }

  function Push(st: Stack, ns: seq<string>): Stack {
    Stack(st.ups, st.names + ns, false)
  }

  lemma PopPop(abs: bool, st: Stack, k: nat, m: nat)
    ensures Pop(abs, Pop(abs, st, k), m) == Pop(abs, st, k + m)
  {
  }

  lemma {:induction false} RunUpsPops(abs: bool, st: Stack, m: nat)
    ensures SamePlace(Run(abs, st, Ups(m), false), Pop(abs, st, m))
    decreases m
  {
    if m > 0 {
      var n := Step(abs, st, UP, false);
      assert Ups(m)[1..] == Ups(m - 1);
      RunUpsPops(abs, n, m - 1);
      assert SamePlace(n, Pop(abs, st, 1));
      PopPop(abs, st, 1, m - 1);
      assert Pop(abs, n, m - 1) == Pop(abs, Pop(abs, st, 1), m - 1);
    }
  }

  /** How far elements climb above where they start, when the names `high` are below them. */
  function Climb(high: seq<string>, es: seq<string>): nat
    decreases |es|
  {
    if es == [] then 0
    else if es[0] == UP then if high == [] then 1 + Climb([], es[1..]) else Climb(high[..|high| - 1], es[1..])
    else Climb(if es[0] == DOT || es[0] == "" then high else high + [es[0]], es[1..])
  }

  /** The names they come down by. */
  function Landing(high: seq<string>, es: seq<string>): seq<string>
    decreases |es|
  {
    if es == [] then high
    else if es[0] == UP then Landing(if high == [] then [] else high[..|high| - 1], es[1..])
    else Landing(if es[0] == DOT || es[0] == "" then high else high + [es[0]], es[1..])
  }

  lemma {:induction false} DepthIs(high: seq<string>, es: seq<string>)
    ensures |Landing(high, es)| == |high| + Depth(es) + Climb(high, es)
    decreases |es|
  {
    if es != [] {
      if es[0] == UP {
        DepthIs(if high == [] then [] else high[..|high| - 1], es[1..]);
      } else {
        DepthIs(if es[0] == DOT || es[0] == "" then high else high + [es[0]], es[1..]);
      }
    }
  }

  /** Whatever they do in between, elements climb and come down. */
  lemma {:induction false} RunClimbsAndLands(abs: bool, st: Stack, low: Stack, high: seq<string>, es: seq<string>)
    requires SamePlace(st, Push(low, high))
    ensures SamePlace(Run(abs, st, es, false), Push(Pop(abs, low, Climb(high, es)), Landing(high, es)))
    decreases |es|
  {
    if es == [] {
      assert Pop(abs, low, 0).names == low.names;
    } else {
      var n := Step(abs, st, es[0], false);
      if es[0] == UP {
        if high == [] {
          assert low.names + high == low.names;
          var up := Pop(abs, low, 1);
          assert up.names + [] == up.names;
          RunClimbsAndLands(abs, n, up, [], es[1..]);
          PopPop(abs, low, 1, Climb([], es[1..]));
        } else {
          assert (low.names + high)[..|low.names + high| - 1] == low.names + high[..|high| - 1];
          RunClimbsAndLands(abs, n, low, high[..|high| - 1], es[1..]);
        }
      } else if es[0] == DOT || es[0] == "" {
        RunClimbsAndLands(abs, n, low, high, es[1..]);
      } else {
        assert low.names + high + [es[0]] == low.names + (high + [es[0]]);
        RunClimbsAndLands(abs, n, low, high + [es[0]], es[1..]);
      }
    }
  }

  lemma RunLands(abs: bool, st: Stack, es: seq<string>)
    ensures SamePlace(Run(abs, st, es, false), Push(Pop(abs, st, Climb([], es)), Landing([], es)))
  {
    assert st.names + [] == st.names;
    RunClimbsAndLands(abs, st, st, [], es);
  }

  /** The same elements lead two places together exactly if they climb to the same place. */
  lemma RunsMeetIff(abs: bool, s: Stack, t: Stack, es: seq<string>)
    ensures SamePlace(Run(abs, s, es, false), Run(abs, t, es, false)) <==>
            Pop(abs, s, Climb([], es)) == Pop(abs, t, Climb([], es))
  {
    RunLands(abs, s, es);
    RunLands(abs, t, es);
    var a, b, ns := Pop(abs, s, Climb([], es)), Pop(abs, t, Climb([], es)), Landing([], es);
    assert (a.names + ns)[..|a.names|] == a.names && (b.names + ns)[..|b.names|] == b.names;
  }

  /** Where the base, ".." by its depth behind the common part and the path's remaining
      elements lead. */
  function Replay(abs: bool, common: seq<string>, a: seq<string>, b: seq<string>): Stack
    requires Depth(b) >= 0
  {
    Run(abs, START, (common + b) + (Ups(Depth(b)) + a), false)
  }

  lemma ReplayParts(abs: bool, common: seq<string>, a: seq<string>, b: seq<string>)
    requires Depth(b) >= 0
    ensures Replay(abs, common, a, b) ==
            Run(abs, Run(abs, Run(abs, START, common + b, false), Ups(Depth(b)), false), a, false)
    ensures Run(abs, START, common + a, false) == Run(abs, Run(abs, START, common, false), a, false)
  {
    RunAppend(abs, START, common, a, false);
    RunAppend(abs, START, common + b, Ups(Depth(b)) + a, false);
    RunAppend(abs, Run(abs, START, common + b, false), Ups(Depth(b)), a, false);
  }

  /** That is where the path leads, if and only if the base lies so far below the place the
      path climbs to from the common part as depth and climb say. */
  lemma ReplayResolvesIff(abs: bool, common: seq<string>, a: seq<string>, b: seq<string>)
    requires Depth(b) >= 0
    ensures SamePlace(Replay(abs, common, a, b), Run(abs, START, common + a, false)) <==>
            Pop(abs, Run(abs, START, common + b, false), Depth(b) + Climb([], a)) ==
            Pop(abs, Run(abs, START, common, false), Climb([], a))
  {
    var base, st, m := Run(abs, START, common + b, false), Run(abs, START, common, false), Climb([], a);
    var back := Run(abs, base, Ups(Depth(b)), false);
    ReplayParts(abs, common, a, b);
    RunsMeetIff(abs, back, st, a);
    RunUpsPops(abs, base, Depth(b));
    PopOfPlace(abs, back, Pop(abs, base, Depth(b)), m);
    PopPop(abs, base, Depth(b), m);
  }

  lemma PopOfPlace(abs: bool, s: Stack, t: Stack, m: nat)
    requires SamePlace(s, t)
    ensures Pop(abs, s, m) == Pop(abs, t, m)
  {
  }

  /** A base that does not climb behind the common part lies there for every path. */
  lemma NotClimbingReturns(abs: bool, common: seq<string>, b: seq<string>, m: nat)
    requires Climb([], b) == 0
    ensures Depth(b) >= 0
    ensures Pop(abs, Run(abs, START, common + b, false), Depth(b) + m) == Pop(abs, Run(abs, START, common, false), m)
  {
    var base, st := Run(abs, START, common + b, false), Run(abs, START, common, false);
    DepthIs([], b);
    RunAppend(abs, START, common, b, false);
    RunLands(abs, st, b);
    var ns := Landing([], b);
    assert Pop(abs, st, 0).names == st.names;
    assert base.names == st.names + ns && (st.names + ns)[..|st.names|] == st.names;
    assert Pop(abs, base, Depth(b)) == Pop(abs, st, 0);
    PopPop(abs, base, Depth(b), m);
    PopPop(abs, st, 0, m);
  }

  lemma {:induction false} WithoutUpsDoesNotClimb(high: seq<string>, es: seq<string>)
    requires UP !in es
    ensures Climb(high, es) == 0
    decreases |es|
  {
    if es != [] {
      WithoutUpsDoesNotClimb(if es[0] == DOT || es[0] == "" then high else high + [es[0]], es[1..]);
    }
  }

  // ---------- the result as a view ----------

  lemma {:induction false} CommonBehind(h: seq<string>, a: seq<string>, b: seq<string>)
    ensures Common(h + a, h + b) == |h| + Common(a, b)
    decreases |h|
  {
    if h == [] {
      assert h + a == a && h + b == b;
    } else {
      assert (h + a)[1..] == h[1..] + a && (h + b)[1..] == h[1..] + b;
      CommonBehind(h[1..], a, b);
    }
  }

  function Heads(v: View): seq<string> {
    (if v.root == "" then [] else [v.root]) + (if v.dir then [[SLASH]] else [])
  }

  lemma ElementsAreHeads(v: View)
    ensures Elements(v) == Heads(v) + Tokens(v)
  {
    assert Elements(v) == (if v.root == "" then [] else [v.root]) + Unrooted(v);
  }

  /** What both lists start with does not matter. */
  lemma RelativeBehind(h: seq<string>, a: seq<string>, b: seq<string>)
    ensures RouteBetween(h + a, h + b) == RouteBetween(a, b)
  {
    var n := Common(a, b);
    CommonBehind(h, a, b);
    DropBehind(h, a, n);
    DropBehind(h, b, n);
  }

  lemma DropBehind(h: seq<string>, a: seq<string>, n: nat)
    requires n <= |a|
    ensures (h + a)[|h| + n..] == a[n..]
  {
  }

  /** The names of a suffix of a path's tokens. */
  function NamesFrom(v: View, n: nat): seq<string>
    requires n <= |Tokens(v)|
  {
    if n <= |v.names| then v.names[n..] else []
  }

  function RelativeView(v: View, n: nat, k: nat): View
    requires n <= |Tokens(v)|
  {
    var ns := Ups(k) + NamesFrom(v, n);
    View("", false, ns, ns != [] && v.slash && n <= |v.names|)
  }

  lemma RelativeIsPath(v: Path, n: nat, k: nat)
    requires Tame(v) && n <= |Tokens(v)|
    ensures WellFormed(RelativeView(v, n, k)) && Tame(RelativeView(v, n, k))
  {
    var ns := RelativeView(v, n, k).names;
    forall i | 0 <= i < |ns|
      ensures IsName(ns[i]) && IsPlain(ns[i])
    {
      if i >= k {
        assert ns[i] == v.names[n + (i - k)];
      }
    }
  }

  lemma SuffixTokens(v: View, n: nat, k: nat)
    requires n <= |Tokens(v)|
    ensures Ups(k) + Tokens(v)[n..] == Ups(k) + NamesFrom(v, n) + (if v.slash && n <= |v.names| then [""] else [])
  {
  }

  /** The two loops at the end write the relative view. */
  lemma FoldsToRelative(v: Path, n: nat, k: nat)
    requires Tame(v) && n <= |Tokens(v)|
    ensures Fold(Fold("", Ups(k), false), Tokens(v)[n..], false) == Render(RelativeView(v, n, k))
  {
    var u := RelativeView(v, n, k);
    FoldAppend("", Ups(k), Tokens(v)[n..], false);
    SuffixTokens(v, n, k);
    RelativeIsPath(v, n, k);
    if u.names != [] {
      FoldElements(u, false);
      RebuildsIff(u);
      assert Elements(u) == Ups(k) + Tokens(v)[n..];
    } else {
      assert Append("", "") == "";
      assert Ups(k) + Tokens(v)[n..] == [] || Ups(k) + Tokens(v)[n..] == [""];
      assert Fold("", [""], false) == "";
    }
  }

  lemma AskedForRelative(v: Path, w: Path)
    requires Tame(v) && Tame(w)
    ensures LexicallyRelative(Render(v), Render(w)) ==
            if v.root == w.root && v.dir == w.dir then Written(RouteBetween(Elements(v), Elements(w))) else ""
  {
    RootNameIsIff(v);
    RootNameIsIff(w);
    RootDirectoryIs(v);
    RootDirectoryIs(w);
    TameIsTaken(v);
    TameIsTaken(w);
  }

  lemma CommonIsAll(a: seq<string>, b: seq<string>)
    ensures Common(a, b) == |a| && Common(a, b) == |b| <==> a == b
  {
    if a == b {
      assert a[..|a|] == b[..|b|];
    } else {
      assert a[..|a|] == a && b[..|b|] == b;
    }
  }

  /** The path's and the base's elements behind the common part. */
  function PathRest(v: View, w: View): seq<string> {
    Tokens(v)[Common(Tokens(v), Tokens(w))..]
  }

  function BaseRest(v: View, w: View): seq<string> {
    Tokens(w)[Common(Tokens(v), Tokens(w))..]
  }

  /** `lexically_relative` on views: nothing for different roots or a base that climbs further
      than it comes down. */
  lemma LexicallyRelativeIs(v: Path, w: Path)
    requires Tame(v) && Tame(w)
    ensures LexicallyRelative(Render(v), Render(w)) ==
            if v.root != w.root || v.dir != w.dir then ""
            else if Tokens(v) == Tokens(w) then DOT
            else if Depth(BaseRest(v, w)) < 0 then ""
            else Render(RelativeView(v, Common(Tokens(v), Tokens(w)), Depth(BaseRest(v, w))))
  {
    AskedForRelative(v, w);
    if v.root == w.root && v.dir == w.dir {
      RelativeIs(v, w);
    }
  }

  lemma RelativeIs(v: Path, w: Path)
    requires Tame(v) && v.root == w.root && v.dir == w.dir
    ensures Written(RouteBetween(Elements(v), Elements(w))) ==
            if Tokens(v) == Tokens(w) then DOT
            else if Depth(BaseRest(v, w)) < 0 then ""
            else Render(RelativeView(v, Common(Tokens(v), Tokens(w)), Depth(BaseRest(v, w))))
  {
    ElementsAreHeads(v);
    ElementsAreHeads(w);
    RelativeBehind(Heads(v), Tokens(v), Tokens(w));
    CommonIsAll(Tokens(v), Tokens(w));
    var n := Common(Tokens(v), Tokens(w));
    if Depth(BaseRest(v, w)) >= 0 {
      FoldsToRelative(v, n, Depth(BaseRest(v, w)));
    }
  }

  // ---------- back to the path ----------

  lemma PlaceOfTokens(abs: bool, ns: seq<string>, slash: bool)
    ensures SamePlace(Run(abs, START, NamesAndEnd(ns, slash), false), Run(abs, START, ns, false))
  {
    if slash {
      RunSnoc(abs, START, ns, "", false);
    } else {
      assert NamesAndEnd(ns, slash) == ns;
    }
  }

  lemma AppendedNames(w: Path, u: Path)
    requires Tame(u) && u.root == "" && !u.dir && (w.root != "" ==> w.dir)
    ensures var x := AppendView(w, u);
            x.names == w.names + u.names && x.dir == w.dir && x.root == w.root
  {
    TameIsTaken(u);
    if u.names == [] {
      assert w.names + [] == w.names;
    }
  }

  /** Appending to the base: the names run one after the other. */
  lemma AppendedResolves(w: Path, u: Path)
    requires Tame(w) && Tame(u) && u.root == "" && !u.dir && (w.root != "" ==> w.dir)
    ensures var st, x := Run(w.dir, START, Tokens(w) + u.names, false), AppendView(w, u);
            Resolve(x) == (st.ups, st.names) && x.root == w.root && x.dir == w.dir
  {
    AppendedNames(w, u);
    var x := AppendView(w, u);
    PlaceOfTokens(x.dir, x.names, x.slash);
    PlaceOfTokens(w.dir, w.names, w.slash);
    RunAppend(w.dir, START, w.names, u.names, false);
    RunAppend(w.dir, START, Tokens(w), u.names, false);
    PlaceIgnoresSlash(w.dir, Run(w.dir, START, Tokens(w), false), Run(w.dir, START, w.names, false), u.names);
  }

  lemma EndKeepsPlace(abs: bool, es: seq<string>, end: seq<string>)
    requires end == [] || end == [""]
    ensures SamePlace(Run(abs, START, es + end, false), Run(abs, START, es, false))
  {
    if end == [] {
      assert es + end == es;
    } else {
      RunSnoc(abs, START, es, "", false);
    }
  }

  lemma ReplayNames(v: View, common: seq<string>, b: seq<string>, n: nat)
    requires n <= |Tokens(v)| && Tokens(v)[..n] == common && Depth(b) >= 0
    ensures SamePlace(Run(v.dir, START, common + b + RelativeView(v, n, Depth(b)).names, false),
                      Replay(v.dir, common, Tokens(v)[n..], b))
  {
    var a, d := Tokens(v)[n..], Depth(b);
    var u := RelativeView(v, n, d);
    SuffixTokens(v, n, d);
    var end := if v.slash && n <= |v.names| then [""] else [];
    assert (common + b) + (Ups(d) + a) == common + b + u.names + end;
    EndKeepsPlace(v.dir, common + b + u.names, end);
  }

  /** What the base with the relative path appended resolves to. */
  function Reached(v: View, w: View): (nat, seq<string>) {
    if Depth(BaseRest(v, w)) < 0 then Resolve(w)
    else
      var st := Replay(v.dir, Tokens(v)[..Common(Tokens(v), Tokens(w))], PathRest(v, w), BaseRest(v, w));
      (st.ups, st.names)
  }

  /** `x` names what `v` names. */
  predicate SameTarget(x: View, v: View) {
    x.root == v.root && x.dir == v.dir && Resolve(x) == Resolve(v)
  }

  lemma RelativeResolves(v: Path, w: Path)
    requires v.dir == w.dir && Depth(BaseRest(v, w)) >= 0 && Tame(v) && Tame(w) && (w.root != "" ==> w.dir)
    ensures var u := RelativeView(v, Common(Tokens(v), Tokens(w)), Depth(BaseRest(v, w)));
            && WellFormed(u) && Tame(u) && Resolve(AppendView(w, u)) == Reached(v, w)
  {
    var n := Common(Tokens(v), Tokens(w));
    RelativeIsPath(v, n, Depth(BaseRest(v, w)));
    AppendedResolves(w, RelativeView(v, n, Depth(BaseRest(v, w))));
    RelativeReaches(v, w, n);
  }

  lemma RelativeReaches(v: View, w: View, n: nat)
    requires v.dir == w.dir && Depth(BaseRest(v, w)) >= 0 && n == Common(Tokens(v), Tokens(w))
    ensures var st := Run(w.dir, START, Tokens(w) + RelativeView(v, n, Depth(BaseRest(v, w))).names, false);
            Reached(v, w) == (st.ups, st.names)
  {
    ReplayNames(v, Tokens(v)[..n], BaseRest(v, w), n);
    assert Tokens(w) == Tokens(v)[..n] + BaseRest(v, w);
  }

  lemma SelfResolves(w: Path)
    requires Tame(w) && (w.root != "" ==> w.dir)
    ensures Resolve(AppendView(w, View("", false, [DOT], false))) == Resolve(w)
  {
    AppendedResolves(w, View("", false, [DOT], false));
    RunSnoc(w.dir, START, Tokens(w), DOT, false);
  }

  lemma EmptyResolves(w: Path)
    requires Tame(w) && (w.root != "" ==> w.dir)
    ensures Resolve(AppendView(w, EMPTY)) == Resolve(w)
  {
    AppendedResolves(w, EMPTY);
    assert Tokens(w) + [] == Tokens(w);
  }

  lemma ParseAppended(w: Path, u: Path)
    requires Tame(w) && Tame(u)
    ensures Parse(Append(Render(w), Render(u))) == AppendView(w, u)
  {
    AppendIsAppendView(w, u);
    AppendViewIsPath(w, u);
    ParseRender(AppendView(w, u));
  }

  lemma RelativeAsPath(v: Path, w: Path) returns (u: Path)
    requires Tame(v) && Tame(w) && v.root == w.root && v.dir == w.dir && (v.root != "" ==> v.dir)
    ensures LexicallyRelative(Render(v), Render(w)) == Render(u)
    ensures Tame(u) && u.root == "" && !u.dir && Resolve(AppendView(w, u)) == Reached(v, w)
  {
    LexicallyRelativeIs(v, w);
    if Tokens(v) == Tokens(w) {
      u := DotText();
      SelfResolves(w);
      ReachedSelf(v, w);
    } else if Depth(BaseRest(v, w)) < 0 {
      u := EMPTY;
      EmptyText();
      EmptyResolves(w);
    } else {
      RelativeResolves(v, w);
      u := RelativeView(v, Common(Tokens(v), Tokens(w)), Depth(BaseRest(v, w)));
    }
  }

  lemma ReachedSelf(v: Path, w: Path)
    requires Tokens(v) == Tokens(w) && v.dir == w.dir
    ensures Reached(v, w) == Resolve(w)
  {
    var ts := Tokens(v);
    CommonIsAll(ts, ts);
    assert ts[..|ts|] == ts && ts[|ts|..] == [] && BaseRest(v, w) == [];
    assert (ts + []) + (Ups(0) + []) == ts;
  }

  /** The base with the relative path appended, as a view. */
  function Back(v: View, w: View): View {
    Parse(Append(Render(w), LexicallyRelative(Render(v), Render(w))))
  }

  lemma BackResolves(v: Path, w: Path)
    requires Tame(v) && Tame(w) && v.root == w.root && v.dir == w.dir && (v.root != "" ==> v.dir)
    ensures Back(v, w).root == w.root && Back(v, w).dir == w.dir && Resolve(Back(v, w)) == Reached(v, w)
  {
    var u := RelativeAsPath(v, w);
    ParseAppended(w, u);
    AppendedNames(w, u);
  }

  /** A bare root name and "." are run together. */
  lemma BareRootIsLost(v: Path, w: Path)
    requires Tame(v) && Tame(w) && v.root == w.root && !v.dir && !w.dir && v.root != ""
    ensures Back(v, w).root == w.root + DOT
  {
    assert v == w && Tokens(v) == [];
    LexicallyRelativeIs(v, w);
    var u := DotText();
    ParseAppended(w, u);
  }

  /** The base leads back: as many levels above it as its depth and the path's climb behind
      the common part is where the path climbs to. If the base climbs further than it comes
      down, it must resolve to the path already. */
  predicate BaseReturns(v: View, w: View) {
    var d := Depth(BaseRest(v, w));
    if d < 0 then Resolve(w) == Resolve(v)
    else
      var common := Run(v.dir, START, Tokens(v)[..Common(Tokens(v), Tokens(w))], false);
      LiesBelow(v.dir, Stack(Resolve(w).0, Resolve(w).1, false), common, d, Climb([], PathRest(v, w)))
  }

  /** `d` and another `m` levels above `base` is where `m` levels above `st` is. */
  predicate LiesBelow(abs: bool, base: Stack, st: Stack, d: nat, m: nat) {
    Pop(abs, base, d + m) == Pop(abs, st, m)
  }

  lemma ReachedIff(v: View, w: View)
    requires v.dir == w.dir
    ensures Reached(v, w) == Resolve(v) <==> BaseReturns(v, w)
  {
    if Depth(BaseRest(v, w)) >= 0 {
      var n := Common(Tokens(v), Tokens(w));
      var common, a, b := Tokens(v)[..n], PathRest(v, w), BaseRest(v, w);
      assert common + a == Tokens(v) && common + b == Tokens(w);
      ReplayLiesBelow(v.dir, common, a, b);
    }
  }

  lemma ReplayLiesBelow(abs: bool, common: seq<string>, a: seq<string>, b: seq<string>)
    requires Depth(b) >= 0
    ensures var base := Run(abs, START, common + b, false);
            SamePlace(Replay(abs, common, a, b), Run(abs, START, common + a, false)) <==>
            LiesBelow(abs, Stack(base.ups, base.names, false), Run(abs, START, common, false), Depth(b), Climb([], a))
  {
    ReplayResolvesIff(abs, common, a, b);
    PopIgnoresSlash(abs, Run(abs, START, common + b, false), Depth(b) + Climb([], a));
  }

  /** With the same root, the base with the relative path appended names what the path names,
      if and only if there is no bare root name and the base leads back. */
  lemma RelativeLeadsBackIff(v: Path, w: Path)
    requires Tame(v) && Tame(w) && v.root == w.root && v.dir == w.dir
    ensures SameTarget(Back(v, w), v) <==> (v.root != "" ==> v.dir) && BaseReturns(v, w)
  {
    if v.root != "" && !v.dir {
      BareRootIsLost(v, w);
    } else {
      BackResolves(v, w);
      ReachedIff(v, w);
    }
  }

  /** A base that does not climb behind the common part leads back for every path. */
  lemma NotClimbingLeadsBack(v: Path, w: Path)
    requires Tame(v) && Tame(w) && v.root == w.root && v.dir == w.dir && (v.root != "" ==> v.dir)
    requires Climb([], BaseRest(v, w)) == 0
    ensures SameTarget(Back(v, w), v)
  {
    NotClimbingBaseReturns(v, w);
    RelativeLeadsBackIff(v, w);
  }

  lemma NotClimbingBaseReturns(v: View, w: View)
    requires v.dir == w.dir && Climb([], BaseRest(v, w)) == 0
    ensures BaseReturns(v, w)
  {
    var n := Common(Tokens(v), Tokens(w));
    NotClimbingReturns(v.dir, Tokens(v)[..n], BaseRest(v, w), Climb([], PathRest(v, w)));
    assert Tokens(v)[..n] + BaseRest(v, w) == Tokens(w);
    PopIgnoresSlash(v.dir, Run(v.dir, START, Tokens(w), false), Depth(BaseRest(v, w)) + Climb([], PathRest(v, w)));
  }

  lemma PopIgnoresSlash(abs: bool, st: Stack, m: nat)
    ensures Pop(abs, st, m) == Pop(abs, Stack(st.ups, st.names, false), m)
  {
  }

  lemma RelativeParses(v: Path, w: Path)
    requires Tame(v) && Tame(w) && v.root == w.root && v.dir == w.dir && Tokens(v) != Tokens(w)
    requires Depth(BaseRest(v, w)) >= 0
    ensures Parse(LexicallyRelative(Render(v), Render(w))) ==
            RelativeView(v, Common(Tokens(v), Tokens(w)), Depth(BaseRest(v, w)))
  {
    RelativeRenders(v, w);
    var n, d := Common(Tokens(v), Tokens(w)), Depth(BaseRest(v, w));
    RelativeIsPath(v, n, d);
    ParseRender(RelativeView(v, n, d));
  }

  lemma RelativeRenders(v: Path, w: Path)
    requires Tame(v) && Tame(w) && v.root == w.root && v.dir == w.dir && Tokens(v) != Tokens(w)
    requires Depth(BaseRest(v, w)) >= 0
    ensures LexicallyRelative(Render(v), Render(w)) ==
            Render(RelativeView(v, Common(Tokens(v), Tokens(w)), Depth(BaseRest(v, w))))
  {
    LexicallyRelativeIs(v, w);
  }

  /** For a base without dots, the result is ".." for each of its names beyond the common part
      and then the path's names beyond it. */
  lemma UpsCountBaseNames(v: Path, w: Path)
    requires Tame(v) && Tame(w) && v.root == w.root && v.dir == w.dir && Tokens(v) != Tokens(w)
    requires UP !in w.names && DOT !in w.names
    ensures var n := Common(Tokens(v), Tokens(w));
            Parse(LexicallyRelative(Render(v), Render(w))).names == Ups(|NamesFrom(w, n)|) + NamesFrom(v, n)
  {
    DepthOfRest(v, w);
    RelativeParses(v, w);
  }

  lemma DepthOfRest(v: Path, w: Path)
    requires UP !in w.names && DOT !in w.names
    ensures Climb([], BaseRest(v, w)) == 0
    ensures Depth(BaseRest(v, w)) == |NamesFrom(w, Common(Tokens(v), Tokens(w)))|
  {
    var n := Common(Tokens(v), Tokens(w));
    assert UP !in BaseRest(v, w);
    WithoutUpsDoesNotClimb([], BaseRest(v, w));
    DepthOfNames(NamesFrom(w, n), w.slash && n <= |w.names|);
    SuffixTokens(w, n, 0);
    assert Ups(0) + Tokens(w)[n..] == Tokens(w)[n..];
    assert Ups(0) + NamesFrom(w, n) == NamesFrom(w, n);
  }

  /** A base without "." and "..", with which a path shares its root. */
  predicate IsNormalBase(v: View, w: View) {
    && Tame(v) && Tame(w) && v.root == w.root && v.dir == w.dir && (v.root != "" ==> v.dir)
    && UP !in w.names && DOT !in w.names
  }

  lemma NormalBaseLeadsBack(v: Path, w: Path)
    requires IsNormalBase(v, w)
    ensures SameTarget(Back(v, w), v)
  {
    DepthOfRest(v, w);
    NotClimbingLeadsBack(v, w);
  }

  lemma RelativeToSelf(v: Path)
    requires Tame(v)
    ensures LexicallyRelative(Render(v), Render(v)) == DOT
  {
    LexicallyRelativeIs(v, v);
  }

  /** On texts: the ".." are counted by the base's names beyond the longest common part, and
      the result leads from the base to the path. */
  lemma RelativeOfNormalBase(p: string, base: string)
    requires Collapsed(p) && Collapsed(base) && IsNormalBase(Parse(p), Parse(base))
    ensures var v, w := Parse(p), Parse(base);
            var n := Common(Tokens(v), Tokens(w));
            p != base ==> Parse(LexicallyRelative(p, base)).names == Ups(|NamesFrom(w, n)|) + NamesFrom(v, n)
    ensures p == base ==> LexicallyRelative(p, base) == DOT
    ensures SameTarget(Parse(Append(base, LexicallyRelative(p, base))), Parse(p))
  {
    var v, w := Parse(p), Parse(base);
    RenderParse(p);
    RenderParse(base);
    NormalBaseLeadsBack(v, w);
    if p == base {
      RelativeToSelf(v);
    } else {
      TokensTellApart(v, w);
      UpsCountBaseNames(v, w);
    }
  }

  lemma TokensTellApart(v: Path, w: Path)
    requires v.root == w.root && v.dir == w.dir && v != w
    ensures Tokens(v) != Tokens(w)
  {
    if v.slash != w.slash && |Tokens(v)| == |Tokens(w)| {
      var k := |Tokens(v)| - 1;
      assert Tokens(v)[k] == "" <==> v.slash;
    }
    assert Tokens(v)[..|v.names|] == v.names && Tokens(w)[..|w.names|] == w.names;
  }

  lemma {:induction false} DepthOfNames(ns: seq<string>, slash: bool)
    requires UP !in ns && DOT !in ns && "" !in ns
    ensures Depth(NamesAndEnd(ns, slash)) == |ns|
    decreases |ns|
  {
    if ns == [] {
      assert NamesAndEnd(ns, slash) == if slash then [""] else [];
    } else {
      assert NamesAndEnd(ns, slash)[1..] == NamesAndEnd(ns[1..], slash);
      DepthOfNames(ns[1..], slash);
    }
  }

  lemma RouteFromClimbingBase(x: string, y: string)
    requires IsProperName(x) && IsProperName(y)
    ensures var v, w := View("", true, [y], false), View("", true, [UP, x], false);
            && Common(Tokens(v), Tokens(w)) == 0 && Depth(BaseRest(v, w)) == 0
            && RelativeView(v, 0, 0) == View("", false, [y], false) && Tokens(v) != Tokens(w)
  {
    assert Tokens(View("", true, [y], false)) == [y] && Tokens(View("", true, [UP, x], false)) == [UP, x];
    assert [UP, x][0..] == [UP, x] && [UP, x][1..] == [x] && Depth([x]) == 1;
    assert Ups(0) + [y] == [y] && [y][0..] == [y];
  }

  lemma RelativeToClimbingBase(x: string, y: string)
    requires IsProperName(x) && IsProperName(y)
    ensures var v, w := View("", true, [y], false), View("", true, [UP, x], false);
            && WellFormed(v) && WellFormed(w) && Tame(v) && Tame(w)
            && LexicallyRelative(Render(v), Render(w)) == y
  {
    var v, w := View("", true, [y], false), View("", true, [UP, x], false);
    RouteFromClimbingBase(x, y);
    LexicallyRelativeIs(v, w);
    assert Terminated([y]) == y + [SLASH];
  }

  lemma AppendToClimbingBase(x: string, y: string)
    requires IsProperName(x) && IsProperName(y)
    ensures Append(Render(View("", true, [UP, x], false)), y) == Render(View("", true, [UP, x, y], false))
  {
    var w, u := View("", true, [UP, x], false), View("", false, [y], false);
    assert Terminated([y]) == y + [SLASH] && Render(u) == y;
    AppendIsAppendView(w, u);
    assert [UP, x] + [y] == [UP, x, y];
  }

  lemma RootedText(ns: seq<string>)
    ensures Render(View("", true, ns, false)) == [SLASH] + Render(View("", false, ns, false))
  {
    assert "" + [SLASH] == [SLASH];
  }

  lemma ClimbingBaseText(u: string, x: string)
    ensures Render(View("", true, [u, x], false)) == [SLASH] + (u + [SLASH] + x)
  {
    RootedText([u, x]);
    TwoNamesText(u, x);
  }

  lemma BelowClimbingBaseText(u: string, x: string, y: string)
    ensures Render(View("", true, [u, x, y], false)) == [SLASH] + (u + [SLASH] + x) + [SLASH] + y
  {
    RootedText([u, x, y]);
    ThreeNamesText(u, x, y);
    var base := u + [SLASH] + x;
    Joined([SLASH], base + [SLASH], y);
    Joined([SLASH], base, [SLASH]);
  }

  lemma RootedNameText(y: string)
    ensures Render(View("", true, [y], false)) == [SLASH] + y
  {
    RootedText([y]);
    assert Terminated([y]) == y + [SLASH];
  }

  lemma ClimbingBaseDoesNotReturn(x: string, y: string)
    requires IsProperName(x) && IsProperName(y)
    ensures !BaseReturns(View("", true, [y], false), View("", true, [UP, x], false))
  {
    RouteFromClimbingBase(x, y);
    assert Tokens(View("", true, [UP, x], false)) == [UP, x] && [UP, x][1..] == [x];
    RunNames(true, 0, [x], false);
    assert Step(true, START, UP, false) == START;
    assert Resolve(View("", true, [UP, x], false)) == (0, [x]);
    var ts := Tokens(View("", true, [y], false));
    assert ts == [y] && ts[..0] == [] && ts[0..] == ts && Climb([], ts) == 0;
  }

  /** The condition on the base matters: "/y" relative to "/../x" is "y", which leads from
      the base to "/../x/y", that is to "/x/y". */
  lemma ClimbingBaseLeadsAstray(x: string, y: string)
    requires IsProperName(x) && IsProperName(y)
    ensures var target, base := [SLASH] + y, [SLASH] + (UP + [SLASH] + x);
            LexicallyRelative(target, base) == y && Append(base, y) == base + [SLASH] + y
    ensures !BaseReturns(View("", true, [y], false), View("", true, [UP, x], false))
    ensures Resolve(View("", true, [y], false)) == (0, [y])
    ensures Resolve(View("", true, [UP, x, y], false)) == (0, [x, y])
  {
    RelativeToClimbingBase(x, y);
    AppendToClimbingBase(x, y);
    RootedNameText(y);
    ClimbingBaseText(UP, x);
    BelowClimbingBaseText(UP, x, y);
    ClimbingBaseDoesNotReturn(x, y);
    ResolvesAstray(x, y);
  }

  lemma ResolvesAstray(x: string, y: string)
    requires IsProperName(x) && IsProperName(y)
    ensures Resolve(View("", true, [y], false)) == (0, [y]) && Resolve(View("", true, [UP, x, y], false)) == (0, [x, y])
  {
    RunNames(true, 0, [y], false);
    RunNames(true, 0, [x, y], false);
    assert Tokens(View("", true, [y], false)) == [y];
    assert Tokens(View("", true, [UP, x, y], false)) == [UP, x, y];
    assert [UP, x, y][1..] == [x, y] && Step(true, START, UP, false) == START;
  }

  // ---------- the code ----------

  /** The loop that counts the base's remaining elements. */
  method DepthFrom(b: Iterator) returns (count: int)
    requires b.Valid()
    modifies b
    ensures count == Depth(ElementsFrom(b.path, old(b.iter)))
  {
    count := 0;
    while b.iter != |b.path|
      invariant b.Valid()
      invariant count + Depth(ElementsFrom(b.path, b.iter)) == Depth(ElementsFrom(b.path, old(b.iter)))
      decreases |b.path| - b.iter
    {
      if b.current != DOT && b.current != "" && b.current != UP {
        count := count + 1;
      } else if b.current == UP {
        count := count - 1;
      }
      b.Next();
    }
  }

  /** The loop that writes the ".." elements. */
  method WriteUps(count: nat) returns (result: PathObject)
    ensures fresh(result) && result.path == Fold("", Ups(count), false)
  {
    result := new PathObject("");
    var i := 0;
    while i < count
      invariant 0 <= i <= count && fresh(result)
      invariant Fold(result.path, Ups(count - i), false) == Fold("", Ups(count), false)
    {
      assert Ups(count - i)[1..] == Ups(count - i - 1);
      result.AppendPath(UP);
      i := i + 1;
    }
  }

  /** The loop that appends the elements left. */
  method WriteRest(result: PathObject, a: Iterator)
    requires a.Valid()
    modifies a, result
    ensures result.path == Fold(old(result.path), ElementsFrom(a.path, old(a.iter)), false)
  {
    while a.iter != |a.path|
      invariant a.Valid()
      invariant Fold(result.path, ElementsFrom(a.path, a.iter), false) ==
                Fold(old(result.path), ElementsFrom(a.path, old(a.iter)), false)
      decreases |a.path| - a.iter
    {
      result.AppendPath(a.current);
      a.Next();
    }
  }

  /** The loop that skips what both paths have in common. */
  method SkipCommon(p: string, base: string) returns (a: Iterator, b: Iterator)
    ensures a != b && fresh(a) && fresh(b) && a.Valid() && b.Valid() && a.path == p && b.path == base
    ensures RouteBetween(ElementsFrom(p, a.iter), ElementsFrom(base, b.iter)) ==
            RouteBetween(ElementsFrom(p, 0), ElementsFrom(base, 0))
    ensures Common(ElementsFrom(p, a.iter), ElementsFrom(base, b.iter)) == 0
  {
    a := new Iterator(p, 0);
    b := new Iterator(base, 0);
    while a.iter != |p| && b.iter != |base| && a.current == b.current
      invariant a != b && fresh(a) && fresh(b) && a.Valid() && b.Valid() && a.path == p && b.path == base
      invariant RouteBetween(ElementsFrom(p, a.iter), ElementsFrom(base, b.iter)) ==
                RouteBetween(ElementsFrom(p, 0), ElementsFrom(base, 0))
      decreases |p| - a.iter
    {
      RouteOfTails(ElementsFrom(p, a.iter), ElementsFrom(base, b.iter));
      a.Next();
      b.Next();
    }
  }

  method LexicallyRelativeTo(p: string, base: string) returns (result: PathObject)
    ensures fresh(result) && result.path == LexicallyRelative(p, base)
  {
    result := new PathObject("");
    if RootName(p) != RootName(base) || IsAbsolute(p) != IsAbsolute(base)
       || (RootDirectory(p) == "" && RootDirectory(base) != "") {
      return;
    }
    var a, b := SkipCommon(p, base);
    if a.iter == |p| && b.iter == |base| {
      result.path := DOT;
      return;
    }
    ghost var es, fs := ElementsFrom(p, a.iter), ElementsFrom(base, b.iter);
    assert es[0..] == es && fs[0..] == fs;
    var count := DepthFrom(b);
    if count >= 0 {
      result := WriteUps(count);
      WriteRest(result, a);
    }
  }

  lemma RouteOfTails(a: seq<string>, b: seq<string>)
    requires a != [] && b != [] && a[0] == b[0]
    ensures RouteBetween(a, b) == RouteBetween(a[1..], b[1..])
  {
    assert a == [a[0]] + a[1..] && b == [a[0]] + b[1..];
    RelativeBehind([a[0]], a[1..], b[1..]);
  }
}
