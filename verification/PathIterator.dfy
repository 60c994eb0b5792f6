/**
  `path::iterator`: the positions it stops at, forwards and backwards.

  On every plain collapsed text the iterator lists the elements of the path's view, and
  `--` undoes `++` at every position.
  */
module PathIterator {
  import opened PathText
  import opened PathView

  // ---------- the position functions, as coded ----------

  function SkipSlashes(p: string, i: nat): (j: nat)
    requires i <= |p|
    ensures i <= j <= |p|
    decreases |p| - i
  {
    if i != |p| && p[i] == SLASH then SkipSlashes(p, i + 1) else i
  }

  function Increment(p: string, pos: nat): (i: nat)
    requires pos <= |p|
    ensures pos <= i <= |p| && (pos < |p| ==> pos < i)
  {
    if pos == |p| then pos
    else
      var i := pos + 1;
      if p[pos] == SLASH then
        if i != |p| && p[i] == SLASH then
          if pos == 0 && !(i + 1 != |p| && p[i + 1] == SLASH) then Find(p, i + 1)
          else SkipSlashes(p, i)
        else i
      else if pos == 0 && i != |p| && p[i] == ':' then i + 1
      else Find(p, i)
  }

  /** `_root`: the position of the root directory's slash, or the end. */
  function RootPos(p: string): (i: nat)
    ensures i <= |p|
  {
    if p != "" && p[0] == SLASH then
      if |p| >= 2 && p[1] == SLASH && !(|p| >= 3 && p[2] == SLASH) then Increment(p, 0) else 0
    else |p|
  }

  function Decrement(p: string, pos: nat): (i: nat)
    requires pos <= |p|
    ensures i <= pos && (pos > 0 ==> i < pos)
  {
    if pos == 0 then 0
    else
      var i := pos - 1;
      if i != RootPos(p) && (pos != |p| || p[i] != SLASH) then
        var k := FindBack(p, i);
        if k == 2 && p[0] == SLASH && p[1] == SLASH then 0 else k
      else i
  }

  /** The loop of `operator++`: past separators, but not past the root or a trailing slash. */
  function Advance(p: string, i: nat): (j: nat)
    requires i <= |p|
    ensures i <= j <= |p|
    decreases |p| - i
  {
    if i != |p| && i != RootPos(p) && p[i] == SLASH && i + 1 != |p| then Advance(p, i + 1) else i
  }

  function NextPos(p: string, pos: nat): (i: nat)
    requires pos <= |p|
    ensures pos <= i <= |p| && (pos < |p| ==> pos < i)
  {
    Advance(p, Increment(p, pos))
  }

  /** `updateCurrent`: the element at a position. */
  function Current(p: string, i: nat): string
    requires i <= |p|
  {
    if i != 0 && i != |p| && p[i] == SLASH && i != RootPos(p) && i + 1 == |p| then ""
    else
      var c := Collapse(p[i..Increment(p, i)]);
      if |c| > 1 && c[0] == SLASH && c[|c| - 1] == SLASH then [SLASH] else c
  }

  /** What iteration from a position lists. */
  function ElementsFrom(p: string, i: nat): seq<string>
    requires i <= |p|
    decreases |p| - i
  {
    if i == |p| then [] else [Current(p, i)] + ElementsFrom(p, NextPos(p, i))
  }

  /** What iteration from `i` lists before it reaches `e`. */
  function ElementsBetween(p: string, i: nat, e: nat): seq<string>
    requires i <= |p|
    decreases |p| - i
  {
    if i == e || i == |p| then [] else [Current(p, i)] + ElementsBetween(p, NextPos(p, i), e)
  }

  /** What iterating backwards down to the start lists. */
  function ElementsBack(p: string, i: nat): seq<string>
    requires i <= |p|
  {
    if i == 0 then [] else [Current(p, Decrement(p, i))] + ElementsBack(p, Decrement(p, i))
  }

  // ---------- where the elements of a view stand ----------

  function HeadCount(v: View): nat {
    (if v.root == "" then 0 else 1) + (if v.dir then 1 else 0)
  }

  /** The length of the first `k` names with their slashes. */
  function Offset(ns: seq<string>, k: nat): nat
    requires k <= |ns|
  {
    if k == 0 then 0 else Offset(ns, k - 1) + |ns[k - 1]| + 1
  }

  function NamePos(v: View, k: nat): nat
    requires k <= |v.names|
  {
    |Head(v)| + Offset(v.names, k)
  }

  /** The position of element `j`; the end for the number of elements. */
  function Pos(v: View, j: nat): nat
    requires j <= |Elements(v)|
  {
    if j == 0 then 0
    else if j == |Elements(v)| then |Render(v)|
    else if j < HeadCount(v) then |v.root|
    else if j < HeadCount(v) + |v.names| then NamePos(v, j - HeadCount(v))
    else if Render(v) == "" then 0 else |Render(v)| - 1
  }

  lemma RootPosIs(v: Path)
    ensures RootPos(Render(v)) == if v.root != "" then |v.root| else if v.dir then 0 else |Render(v)|
  {
    var p := Render(v);
    TailIs(v);
    RootLengthOfRender(v);
    if v.root != "" {
      assert p[2] == v.root[2..][0];
      assert p[2..|v.root|] == v.root[2..];
    } else if v.dir {
      assert p[1..] == Tail(v);
    } else {
      assert p == Tail(v);
    }
  }

  lemma {:induction false} OffsetIs(ns: seq<string>, k: nat)
    requires k <= |ns|
    ensures Offset(ns, k) == |Terminated(ns[..k])|
  {
    if k == 0 {
      assert ns[..k] == [];
    } else {
      OffsetIs(ns, k - 1);
      TerminatedLast(ns[..k]);
      assert ns[..k][..k - 1] == ns[..k - 1];
    }
  }

  /** Where name `k` stands in the terminated text. */
  lemma InTerminated(ns: seq<string>, k: nat)
    requires k < |ns|
    ensures Offset(ns, k) + |ns[k]| < |Terminated(ns)|
    ensures Terminated(ns)[Offset(ns, k)..Offset(ns, k) + |ns[k]|] == ns[k]
    ensures Terminated(ns)[Offset(ns, k) + |ns[k]|] == SLASH
    ensures Offset(ns, k) + |ns[k]| + 1 == |Terminated(ns)| <==> k + 1 == |ns|
  {
    OffsetIs(ns, k);
    TerminatedAt(ns, k);
    var a, n, b := Terminated(ns[..k]), ns[k], Terminated(ns[k + 1..]);
    var u := n + [SLASH] + b;
    assert Terminated(ns) == a + u;
    assert u[..|n|] == n && u[|n|] == SLASH;
    assert (a + u)[|a|..|a| + |n|] == u[..|n|];
  }

  lemma RenderAt(v: View)
    requires v.names != []
    ensures |Render(v)| == |Head(v)| + |Terminated(v.names)| - (if v.slash then 0 else 1)
    ensures |Head(v)| <= |Render(v)| && Render(v)[|Head(v)|..] <= Terminated(v.names)
  {
    assert Render(v)[|Head(v)|..] == Tail(v);
  }

  function NameEnd(v: View, k: nat): nat
    requires k < |v.names|
  {
    NamePos(v, k) + |v.names[k]|
  }

  lemma NameBounds(v: View, k: nat)
    requires k < |v.names| && v.names[k] != ""
    ensures NamePos(v, k) < NameEnd(v, k) <= |Render(v)|
    ensures NameEnd(v, k) + (if v.slash then 1 else 0) == |Render(v)| <==> k + 1 == |v.names|
  {
    InTerminated(v.names, k);
    RenderAt(v);
  }

  lemma NextNamePos(v: View, k: nat)
    requires k + 1 < |v.names| && v.names[k + 1] != ""
    ensures NamePos(v, k + 1) == NameEnd(v, k) + 1 < |Render(v)|
  {
    NameBounds(v, k + 1);
  }

  /** Text that stands at `a` in `t` stands at `i` in `p`, which continues `t` from `h` on. */
  lemma Slice(p: string, t: string, i: nat, e: nat, h: nat, a: nat, n: string)
    requires h <= i == h + a <= e == i + |n| <= |p| && p[h..] <= t
    requires t[a..a + |n|] == n
    ensures p[i..e] == n
    ensures e < |p| ==> p[e] == t[a + |n|]
  {
    var q := p[h..];
    assert p[i..e] == q[a..a + |n|];
    assert q == t[..|q|];
  }

  /** The text around name `k`. */
  lemma NameText(v: View, k: nat)
    requires k < |v.names| && NameEnd(v, k) <= |Render(v)|
    ensures Render(v)[NamePos(v, k)..NameEnd(v, k)] == v.names[k]
    ensures NameEnd(v, k) < |Render(v)| ==> Render(v)[NameEnd(v, k)] == SLASH
  {
    var t, a, n := Terminated(v.names), Offset(v.names, k), v.names[k];
    assert t[a..a + |n|] == n && t[a + |n|] == SLASH by {
      InTerminated(v.names, k);
    }
    RenderAt(v);
    Slice(Render(v), t, NamePos(v, k), NameEnd(v, k), |Head(v)|, a, n);
  }

  /** What precedes name `k`: nothing, or a slash. */
  lemma BeforeName(v: View, k: nat)
    requires k < |v.names| && NamePos(v, k) <= |Render(v)| && (v.root != "" ==> v.dir)
    ensures NamePos(v, k) > 0 ==> Render(v)[NamePos(v, k) - 1] == SLASH
  {
    if k > 0 {
      NameText(v, k - 1);
    } else if v.dir {
      assert Head(v)[|Head(v)| - 1] == SLASH;
    }
  }

  /** Names stand behind the root; in front of the first one there is no second slash. */
  lemma RootBeforeName(v: Path, k: nat)
    requires k < |v.names| && NamePos(v, k) <= |Render(v)|
    ensures RootPos(Render(v)) < NamePos(v, k) || (v.root == "" && !v.dir && RootPos(Render(v)) == |Render(v)|)
    ensures NamePos(v, k) == 2 ==> !(Render(v)[0] == SLASH && Render(v)[1] == SLASH)
  {
    RootPosIs(v);
    if v.root == "" {
      RootLengthOfRender(v);
      TailIs(v);
      assert Render(v)[|Head(v)|..] == Tail(v);
    }
  }

  // ---------- one step over a slash-free stretch ----------

  lemma SlashFreeIsCollapsed(n: string)
    requires SLASH !in n
    ensures Collapse(n) == n
  {
    NameHasNoSlash(n);
    CollapseFixed(n);
  }

  lemma IncrementOverName(p: string, i: nat, e: nat)
    requires i < e <= |p| && SLASH !in p[i..e] && (e < |p| ==> p[e] == SLASH)
    requires i == 0 && |p| > 1 && p[1] == ':' ==> e == 2
    ensures Increment(p, i) == e && Current(p, i) == p[i..e]
  {
    assert p[i..e] == [p[i]] + p[i + 1..e];
    FindIs(p, i + 1, e);
    SlashFreeIsCollapsed(p[i..e]);
  }

  lemma StepOverName(p: string, i: nat, e: nat)
    requires i < e <= |p| && SLASH !in p[i..e] && (e < |p| ==> p[e] == SLASH && e != RootPos(p))
    requires e + 1 < |p| ==> p[e + 1] != SLASH
    requires i == 0 && |p| > 1 && p[1] == ':' ==> e == 2
    ensures Current(p, i) == p[i..e]
    ensures NextPos(p, i) == if e + 1 < |p| then e + 1 else e
  {
    IncrementOverName(p, i, e);
    if e + 1 < |p| {
      assert Advance(p, e + 1) == e + 1;
    }
  }

  lemma StepBackOverName(p: string, i: nat, e: nat, pos: nat)
    requires i < e <= |p| && SLASH !in p[i..e] && (i > 0 ==> p[i - 1] == SLASH)
    requires (pos == e && e - 1 != RootPos(p)) || (pos == e + 1 < |p| && e != RootPos(p))
    requires i == 2 ==> !(p[0] == SLASH && p[1] == SLASH)
    ensures Decrement(p, pos) == i
  {
    if pos == e {
      assert p[i..e] == p[i..e - 1] + [p[e - 1]];
      FindBackIs(p, e - 1, i);
    } else {
      FindBackIs(p, e, i);
    }
  }

  // ---------- one step on the text of a view ----------

  /** The text does not start with a letter, a colon and more: the iterator would split
      that name behind the colon, as if it were a drive. */
  predicate NoDrive(p: string) {
    |p| > 2 && p[0] != SLASH && p[1] == ':' ==> p[2] == SLASH
  }

  lemma NoDriveEndsName(p: string, e: nat)
    requires NoDrive(p) && 0 < e <= |p| && SLASH !in p[0..e] && (e < |p| ==> p[e] == SLASH)
    requires |p| > 1 && p[1] == ':'
    ensures e == 2
  {
    assert p[0] == p[0..e][0];
    FindIs(p, 0, e);
    FindIs(p, 0, 2);
  }

  /** Where the iterator goes on behind name `k`. */
  function BehindName(v: View, k: nat): int
    requires k < |v.names|
  {
    if k + 1 < |v.names| then NamePos(v, k + 1) else if v.slash then |Render(v)| - 1 else |Render(v)|
  }

  lemma BehindSeparator(v: View, k: nat)
    requires k + 1 < |v.names| && IsName(v.names[k + 1])
    ensures NamePos(v, k + 1) == NameEnd(v, k) + 1 < |Render(v)| && Render(v)[NameEnd(v, k) + 1] != SLASH
  {
    NextNamePos(v, k);
    NameBounds(v, k + 1);
    NameText(v, k + 1);
    assert Render(v)[NamePos(v, k + 1)] == v.names[k + 1][0];
  }

  lemma NameIsNoDrive(v: View, k: nat)
    requires k < |v.names| && IsName(v.names[k]) && NoDrive(Render(v))
    requires NamePos(v, k) == 0 && |Render(v)| > 1 && Render(v)[1] == ':'
    ensures NameEnd(v, k) == 2
  {
    NameBounds(v, k);
    NameText(v, k);
    NoDriveEndsName(Render(v), NameEnd(v, k));
  }

  lemma NameStep(v: Path, k: nat)
    requires k < |v.names| && (NamePos(v, k) == 0 ==> NoDrive(Render(v)))
    ensures NamePos(v, k) < BehindName(v, k) <= |Render(v)|
    ensures Current(Render(v), NamePos(v, k)) == v.names[k]
    ensures NextPos(Render(v), NamePos(v, k)) == BehindName(v, k)
  {
    NameBounds(v, k);
    NameText(v, k);
    RootBeforeName(v, k);
    if k + 1 < |v.names| {
      BehindSeparator(v, k);
    }
    if NamePos(v, k) == 0 && |Render(v)| > 1 && Render(v)[1] == ':' {
      NameIsNoDrive(v, k);
    }
    StepOverName(Render(v), NamePos(v, k), NameEnd(v, k));
  }

  lemma NameStepBack(v: Path, k: nat)
    requires k < |v.names|
    ensures NamePos(v, k) < BehindName(v, k) <= |Render(v)|
    ensures Decrement(Render(v), BehindName(v, k)) == NamePos(v, k)
  {
    NameBounds(v, k);
    NameText(v, k);
    BeforeName(v, k);
    RootBeforeName(v, k);
    if k + 1 < |v.names| {
      NextNamePos(v, k);
    }
    StepBackOverName(Render(v), NamePos(v, k), NameEnd(v, k), BehindName(v, k));
  }

  /** The element behind a trailing separator is empty. */
  lemma TrailingStep(v: Path)
    requires v.slash
    ensures |Render(v)| > 1
    ensures Current(Render(v), |Render(v)| - 1) == "" && NextPos(Render(v), |Render(v)| - 1) == |Render(v)|
    ensures Decrement(Render(v), |Render(v)|) == |Render(v)| - 1
  {
    var k := |v.names| - 1;
    NameBounds(v, k);
    NameText(v, k);
    RootBeforeName(v, k);
  }

  lemma RootIsCollapsed(r: string)
    requires IsRoot(r)
    ensures Collapse(r) == r && (r != "" ==> r[|r| - 1] != SLASH && r[2] != SLASH)
  {
    if r != "" {
      var host := r[2..];
      assert r[2] == host[0] && r[|r| - 1] == host[|host| - 1];
      NameHasNoSlash(host);
    }
    CollapseFixed(r);
  }

  /** The text of a root name and the position behind it. */
  lemma RootText(v: Path)
    requires v.root != ""
    ensures RootPos(Render(v)) == |v.root| <= |Render(v)| && Render(v)[..|v.root|] == v.root
    ensures |v.root| < |Render(v)| ==> Render(v)[|v.root|] == SLASH
    ensures SLASH !in Render(v)[2..|v.root|]
  {
    RootPosIs(v);
    RootLengthOfRender(v);
    TailIs(v);
    assert Render(v)[2..|v.root|] == v.root[2..];
  }

  lemma RootStep(v: Path)
    requires v.root != ""
    ensures Current(Render(v), 0) == v.root && NextPos(Render(v), 0) == |v.root|
  {
    var p, n := Render(v), |v.root|;
    RootText(v);
    RootIsCollapsed(v.root);
    assert p[2] == v.root[2] && p[0..n] == p[..n];
    FindIs(p, 2, n);
  }

  lemma RootStepBack(v: Path)
    requires v.root != ""
    ensures Decrement(Render(v), |v.root|) == 0
  {
    var p, n := Render(v), |v.root|;
    RootText(v);
    assert p[2..n] == p[2..n - 1] + [p[n - 1]];
    FindBackIs(p, n - 1, 2);
  }

  lemma DirStep(v: Path)
    requires v.dir
    ensures |v.root| < |Render(v)|
    ensures Current(Render(v), |v.root|) == [SLASH] && NextPos(Render(v), |v.root|) == |v.root| + 1 == |Head(v)|
    ensures Decrement(Render(v), |v.root| + 1) == |v.root|
  {
    var p, n := Render(v), |v.root|;
    RootPosIs(v);
    RootLengthOfRender(v);
    TailIs(v);
    assert p[n + 1..] == Tail(v);
    assert p[n..n + 1] == [SLASH];
  }

  // ---------- the whole text ----------

  /** Element `e` stands at `i`, `++` leads to `n`, and `--` leads back. */
  predicate IsStep(p: string, i: nat, n: nat, e: string) {
    i < n <= |p| && Current(p, i) == e && NextPos(p, i) == n && Decrement(p, n) == i
  }

  lemma ElementStep(v: Path, j: nat)
    requires j < |Elements(v)| && (j == 0 ==> NoDrive(Render(v)))
    ensures IsStep(Render(v), Pos(v, j), Pos(v, j + 1), Elements(v)[j])
  {
    var h := HeadCount(v);
    if j < h {
      HeadElementStep(v, j);
    } else if j < h + |v.names| {
      NameElementStep(v, j);
    } else {
      TrailingElementStep(v, j);
    }
  }

  lemma TrailingElementStep(v: Path, j: nat)
    requires HeadCount(v) + |v.names| <= j < |Elements(v)|
    ensures IsStep(Render(v), Pos(v, j), Pos(v, j + 1), Elements(v)[j])
  {
    TrailingStep(v);
  }

  lemma HeadElementStep(v: Path, j: nat)
    requires j < HeadCount(v)
    ensures IsStep(Render(v), Pos(v, j), Pos(v, j + 1), Elements(v)[j])
  {
    TailIs(v);
    if j == 0 && v.root != "" {
      RootStep(v);
      RootStepBack(v);
    } else {
      DirStep(v);
    }
  }

  lemma PosOfName(v: View, k: nat)
    requires k < |v.names|
    ensures HeadCount(v) + k < |Elements(v)| && Elements(v)[HeadCount(v) + k] == v.names[k]
    ensures Pos(v, HeadCount(v) + k) == NamePos(v, k)
    ensures BehindName(v, k) >= 0 && Render(v) != "" ==> Pos(v, HeadCount(v) + k + 1) == BehindName(v, k)
  {
  }

  lemma NameElementStep(v: Path, j: nat)
    requires HeadCount(v) <= j < HeadCount(v) + |v.names| && (j == 0 ==> NoDrive(Render(v)))
    ensures IsStep(Render(v), Pos(v, j), Pos(v, j + 1), Elements(v)[j])
  {
    var k := j - HeadCount(v);
    PosOfName(v, k);
    NameIsStep(v, k);
    SameStep(Render(v), NamePos(v, k), BehindName(v, k), v.names[k], Pos(v, j), Pos(v, j + 1), Elements(v)[j]);
  }

  lemma SameStep(p: string, i: nat, n: nat, e: string, i': nat, n': nat, e': string)
    requires IsStep(p, i, n, e) && i == i' && n == n' && e == e'
    ensures IsStep(p, i', n', e')
  {
  }

  lemma NameIsStep(v: Path, k: nat)
    requires k < |v.names| && (NamePos(v, k) == 0 ==> NoDrive(Render(v)))
    ensures 0 <= BehindName(v, k) && IsStep(Render(v), NamePos(v, k), BehindName(v, k), v.names[k])
  {
    NameStep(v, k);
    NameStepBack(v, k);
  }

  lemma EmptyHasNoElements(v: Path)
    ensures Elements(v) == [] <==> Render(v) == ""
  {
    TailIs(v);
  }

  /** The positions of all elements and the end, with a step from each from number `k` on. */
  ghost predicate IsTrackFrom(p: string, ps: seq<nat>, es: seq<string>, k: nat) {
    && |ps| == |es| + 1 && ps[|es|] == |p| && k <= |es|
    && forall j :: k <= j < |es| ==> IsStep(p, ps[j], ps[j + 1], es[j])
  }

  ghost predicate IsTrack(p: string, ps: seq<nat>, es: seq<string>) {
    IsTrackFrom(p, ps, es, 0) && ps[0] == 0
  }

  lemma PosAtEnds(v: Path)
    ensures Pos(v, 0) == 0 && Pos(v, |Elements(v)|) == |Render(v)|
  {
    EmptyHasNoElements(v);
  }

  function Positions(v: View): (ps: seq<nat>)
    ensures |ps| == |Elements(v)| + 1 && forall j :: 0 <= j < |ps| ==> ps[j] == Pos(v, j)
  {
    seq(|Elements(v)| + 1, j requires 0 <= j <= |Elements(v)| => Pos(v, j))
  }

  lemma TrackFrom(v: Path, k: nat)
    requires k <= |Elements(v)| && (k == 0 ==> NoDrive(Render(v)))
    ensures IsTrackFrom(Render(v), Positions(v), Elements(v), k)
  {
    PosAtEnds(v);
    var ps := Positions(v);
    forall j | k <= j < |Elements(v)|
      ensures IsStep(Render(v), ps[j], ps[j + 1], Elements(v)[j])
    {
      ElementStep(v, j);
    }
  }

  lemma TrackOf(v: Path) returns (ps: seq<nat>)
    requires NoDrive(Render(v))
    ensures IsTrack(Render(v), ps, Elements(v))
  {
    PosAtEnds(v);
    TrackFrom(v, 0);
    ps := Positions(v);
  }

  lemma {:induction false} ElementsFromTrack(p: string, ps: seq<nat>, es: seq<string>, j: nat)
    requires IsTrackFrom(p, ps, es, j)
    ensures ps[j] <= |p| && ElementsFrom(p, ps[j]) == es[j..]
    decreases |es| - j
  {
    if j < |es| {
      assert IsStep(p, ps[j], ps[j + 1], es[j]);
      ElementsFromTrack(p, ps, es, j + 1);
    }
  }

  lemma {:induction false} VisitsTrack(p: string, ps: seq<nat>, es: seq<string>, j: nat, m: nat)
    requires IsTrackFrom(p, ps, es, j) && j <= m <= |es|
    ensures Visits(p, ps[j], ps[m])
    decreases m - j
  {
    if j < m {
      assert IsStep(p, ps[j], ps[j + 1], es[j]);
      VisitsTrack(p, ps, es, j + 1, m);
      VisitsOver(p, ps[j], ps[j + 1], ps[m]);
    } else if j < |es| {
      assert IsStep(p, ps[j], ps[j + 1], es[j]);
    }
  }

  function Reversed(es: seq<string>): seq<string> {
    if es == [] then [] else [es[|es| - 1]] + Reversed(es[..|es| - 1])
  }

  lemma {:induction false} ElementsBackFromTrack(p: string, ps: seq<nat>, es: seq<string>, j: nat)
    requires IsTrack(p, ps, es) && j <= |es|
    ensures ps[j] <= |p| && ElementsBack(p, ps[j]) == Reversed(es[..j])
  {
    if j > 0 {
      assert IsStep(p, ps[j - 1], ps[j - 1 + 1], es[j - 1]);
      ElementsBackFromTrack(p, ps, es, j - 1);
      assert es[..j][..j - 1] == es[..j - 1];
    }
  }

  lemma IterationOfView(v: Path)
    requires NoDrive(Render(v))
    ensures ElementsFrom(Render(v), 0) == Elements(v)
    ensures ElementsBack(Render(v), |Render(v)|) == Reversed(Elements(v))
  {
    var es := Elements(v);
    var ps := TrackOf(v);
    ElementsFromTrack(Render(v), ps, es, 0);
    ElementsBackFromTrack(Render(v), ps, es, |es|);
    assert es[0..] == es == es[..|es|];
  }

  // ---------- drives ----------

  /** A name that the iterator takes for a drive, if it stands in front, and what follows. */
  predicate IsDrive(n: string) {
    |n| > 2 && n[1] == ':'
  }

  predicate HasDrive(v: View) {
    v.root == "" && !v.dir && v.names != [] && IsDrive(v.names[0])
  }

  /** The view the iterator sees: a drive in front is a name of its own. */
  function Split(v: View): View {
    if HasDrive(v) then v.(names := [v.names[0][..2], v.names[0][2..]] + v.names[1..]) else v
  }

  lemma FirstNameText(v: Path)
    requires v.root == "" && !v.dir && v.names != []
    ensures 0 < |v.names[0]| <= |Render(v)| && Render(v)[..|v.names[0]|] == v.names[0]
    ensures |v.names[0]| < |Render(v)| ==> Render(v)[|v.names[0]|] == SLASH
  {
    NameBounds(v, 0);
    NameText(v, 0);
    assert Render(v)[0..|v.names[0]|] == Render(v)[..|v.names[0]|];
  }

  lemma DriveShows(v: Path)
    ensures HasDrive(v) <==> !NoDrive(Render(v))
  {
    if v.root != "" {
      RootText(v);
    } else if !v.dir && v.names != [] {
      FirstNameText(v);
      var n := v.names[0];
      assert forall i :: 0 <= i < |n| ==> Render(v)[i] == n[i];
    }
  }

  lemma SplitIsPath(v: Path)
    ensures WellFormed(Split(v))
  {
    if HasDrive(v) {
      var n := v.names[0];
      assert n == n[..2] + n[2..];
    }
  }

  lemma ElementsFromPos(v: Path, j: nat)
    requires j <= |Elements(v)| && (j == 0 ==> NoDrive(Render(v)))
    ensures Pos(v, j) <= |Render(v)| && ElementsFrom(Render(v), Pos(v, j)) == Elements(v)[j..]
  {
    TrackFrom(v, j);
    ElementsFromTrack(Render(v), Positions(v), Elements(v), j);
  }

  /** The two steps over a name that looks like a drive. */
  lemma DriveSteps(v: Path)
    requires HasDrive(v)
    ensures |Render(v)| > 2 && Current(Render(v), 0) == v.names[0][..2] && NextPos(Render(v), 0) == 2
    ensures Current(Render(v), 2) == v.names[0][2..] && NextPos(Render(v), 2) == BehindName(v, 0)
  {
    var p, n := Render(v), v.names[0];
    FirstNameText(v);
    RootPosIs(v);
    assert p[0..2] == n[..2] && p[2..|n|] == n[2..];
    assert p[0] == n[0] && p[1] == n[1] && p[2] == n[2];
    SlashFreeIsCollapsed(p[0..2]);
    if |v.names| > 1 {
      BehindSeparator(v, 0);
    }
    NameBounds(v, 0);
    StepOverName(p, 2, |n|);
  }

  lemma BehindDrive(v: Path)
    requires HasDrive(v)
    ensures 0 <= BehindName(v, 0) <= |Render(v)|
    ensures Elements(Split(v)) == [v.names[0][..2], v.names[0][2..]] + ElementsFrom(Render(v), BehindName(v, 0))
  {
    BehindDriveIs(v);
    ElementsFromPos(v, 1);
    ElementsOfDrive(v);
  }

  lemma BehindDriveIs(v: Path)
    requires HasDrive(v)
    ensures |Elements(v)| >= 1 && Pos(v, 1) == BehindName(v, 0) <= |Render(v)|
  {
    NameStepBack(v, 0);
    PosOfName(v, 0);
  }

  lemma ElementsOfDrive(v: View)
    requires HasDrive(v)
    ensures Elements(v) != [] && Elements(Split(v)) == [v.names[0][..2], v.names[0][2..]] + Elements(v)[1..]
  {
    assert Elements(v) == NamesAndEnd(v.names, v.slash);
  }

  lemma ListsTwo(p: string, n: nat)
    requires |p| > 2 && NextPos(p, 0) == 2 && NextPos(p, 2) == n
    ensures ElementsFrom(p, 0) == [Current(p, 0), Current(p, 2)] + ElementsFrom(p, n)
  {
    FromIs(p, 0);
    FromIs(p, 2);
    Regroup([Current(p, 0)], [Current(p, 2)], ElementsFrom(p, n));
  }

  /** Iteration lists the elements of the view in which a drive is split off. */
  lemma IterationSplitsDrive(v: Path)
    ensures ElementsFrom(Render(v), 0) == Elements(Split(v))
  {
    DriveShows(v);
    if HasDrive(v) {
      BehindDrive(v);
      DriveSteps(v);
      ListsTwo(Render(v), BehindName(v, 0));
    } else {
      IterationOfView(v);
    }
  }

  /** Iteration from `i` comes to `e`. */
  predicate Visits(p: string, i: nat, e: nat)
    decreases |p| - i
  {
    i <= |p| && (i == e || (i < |p| && Visits(p, NextPos(p, i), e)))
  }

  lemma {:induction false} VisitsForward(p: string, i: nat, e: nat)
    requires Visits(p, i, e)
    ensures i <= e <= |p|
    ensures ElementsBetween(p, i, e) + ElementsFrom(p, e) == ElementsFrom(p, i)
    decreases |p| - i
  {
    if i == e {
      assert ElementsBetween(p, i, e) == [];
    } else {
      var n := NextPos(p, i);
      VisitsForward(p, n, e);
      BetweenIs(p, i, e);
      FromIs(p, i);
      Regroup([Current(p, i)], ElementsBetween(p, n, e), ElementsFrom(p, e));
    }
  }

  lemma BetweenIs(p: string, i: nat, e: nat)
    requires i < |p| && i != e
    ensures ElementsBetween(p, i, e) == [Current(p, i)] + ElementsBetween(p, NextPos(p, i), e)
  {
  }

  lemma FromIs(p: string, i: nat)
    requires i < |p|
    ensures ElementsFrom(p, i) == [Current(p, i)] + ElementsFrom(p, NextPos(p, i))
  {
  }

  lemma Regroup(a: seq<string>, b: seq<string>, c: seq<string>)
    ensures a + b + c == a + (b + c)
  {
  }

  lemma VisitsPos(v: Path, j: nat, m: nat)
    requires j <= m <= |Elements(v)| && (j == 0 ==> NoDrive(Render(v)))
    ensures Visits(Render(v), Pos(v, j), Pos(v, m))
  {
    TrackFrom(v, j);
    VisitsTrack(Render(v), Positions(v), Elements(v), j, m);
  }

  lemma VisitsFromStart(v: Path, m: nat)
    requires m <= |Elements(v)| && (HasDrive(v) ==> m > 0)
    ensures Visits(Render(v), 0, Pos(v, m))
  {
    DriveShows(v);
    if HasDrive(v) {
      VisitsPos(v, 1, m);
      PosOfName(v, 0);
      DriveSteps(v);
      VisitsOver(Render(v), 2, Pos(v, 1), Pos(v, m));
      VisitsOver(Render(v), 0, 2, Pos(v, m));
    } else {
      VisitsPos(v, 0, m);
    }
  }

  lemma VisitsOver(p: string, i: nat, n: nat, e: nat)
    requires i < |p| && NextPos(p, i) == n && Visits(p, n, e)
    ensures Visits(p, i, e)
  {
  }

  lemma LastElementStep(v: Path)
    requires Elements(v) != [] && !(HasDrive(v) && |Elements(v)| == 1)
    ensures IsStep(Render(v), Pos(v, |Elements(v)| - 1), |Render(v)|, Elements(v)[|Elements(v)| - 1])
  {
    DriveShows(v);
    PosAtEnds(v);
    ElementStep(v, |Elements(v)| - 1);
  }

  /** Iterating up to the last element lists all but the last one. */
  lemma AllButLast(v: Path)
    requires Elements(v) != [] && !(HasDrive(v) && |Elements(v)| == 1)
    ensures var p, es := Render(v), Elements(Split(v));
            && ElementsBetween(p, 0, Decrement(p, |p|)) == es[..|es| - 1]
            && (Decrement(p, |p|) == 0 <==> |Elements(v)| == 1)
  {
    var m := |Elements(v)| - 1;
    LastElementStep(v);
    VisitsFromStart(v, m);
    VisitsForward(Render(v), 0, Pos(v, m));
    IterationSplitsDrive(v);
    LastIsOne(Render(v), Pos(v, m));
    if m > 0 {
      PosBehindStart(v, m);
    }
  }

  /** Exactly unless the path is a single name with a drive: its end goes back to its start. */
  lemma AllButLastIff(v: Path)
    requires Elements(v) != []
    ensures var p, es := Render(v), Elements(Split(v));
            es != [] && (ElementsBetween(p, 0, Decrement(p, |p|)) == es[..|es| - 1] <==>
                         !(HasDrive(v) && |Elements(v)| == 1))
  {
    if HasDrive(v) && |Elements(v)| == 1 {
      NameStepBack(v, 0);
      assert |Elements(Split(v))| == 2;
    } else {
      AllButLast(v);
    }
  }

  lemma LastIsOne(p: string, i: nat)
    requires i < |p| && NextPos(p, i) == |p|
    ensures ElementsFrom(p, i) == [Current(p, i)]
  {
  }

  lemma PosBehindStart(v: Path, m: nat)
    requires 0 < m < |Elements(v)|
    ensures Pos(v, m) > 0
  {
    ElementStep(v, m);
    EmptyHasNoElements(v);
    if HeadCount(v) <= m < HeadCount(v) + |v.names| {
      PosOfName(v, m - HeadCount(v));
    } else if m >= HeadCount(v) + |v.names| {
      TrailingStep(v);
    }
  }

  /** Forwards and backwards, iteration lists the elements of the view. */
  lemma IterationListsElements(p: string)
    requires Collapsed(p) && NoDrive(p)
    ensures ElementsFrom(p, 0) == Elements(Parse(p))
    ensures ElementsBack(p, |p|) == Reversed(ElementsFrom(p, 0))
  {
    RenderParse(p);
    IterationOfView(Parse(p));
  }

  /** What looks like a drive is split behind the colon. */
  lemma DriveIsSplit(p: string)
    requires !NoDrive(p)
    ensures ElementsFrom(p, 0) != [] && |ElementsFrom(p, 0)[0]| == 2
  {
    assert SLASH !in p[0..2];
    SlashFreeIsCollapsed(p[0..2]);
  }

  lemma DriveNameIsLonger(p: string)
    requires !NoDrive(p) && Collapsed(p)
    ensures Elements(Parse(p)) != [] && |Elements(Parse(p))[0]| > 2
  {
    var v := Parse(p);
    RenderParse(p);
    assert v.root == "" && !v.dir;
    FirstNameIsLonger(v);
  }

  lemma FirstNameIsLonger(v: Path)
    requires v.root == "" && !v.dir && !NoDrive(Render(v))
    ensures v.names != [] && Elements(v) != [] && Elements(v)[0] == v.names[0] && |v.names[0]| > 2
  {
    TailIs(v);
    NameBounds(v, 0);
    NameText(v, 0);
  }

  /** So the condition is exact. */
  lemma IterationListsElementsIff(p: string)
    requires Collapsed(p)
    ensures ElementsFrom(p, 0) == Elements(Parse(p)) <==> NoDrive(p)
  {
    if NoDrive(p) {
      IterationListsElements(p);
    } else {
      DriveIsSplit(p);
      DriveNameIsLonger(p);
    }
  }

  /** The positions that iteration from the start stops at. */
  ghost predicate Reachable(p: string, i: nat)
    decreases i
  {
    i == 0 || exists h: nat | h < i && h <= |p| :: NextPos(p, h) == i && Reachable(p, h)
  }

  lemma {:induction false} ReachableIsOnTrack(p: string, ps: seq<nat>, es: seq<string>, i: nat) returns (j: nat)
    requires IsTrack(p, ps, es) && i < |p| && Reachable(p, i)
    ensures j < |es| && ps[j] == i
    decreases i
  {
    if i == 0 {
      j := 0;
    } else {
      var h: nat :| h < i && h <= |p| && NextPos(p, h) == i && Reachable(p, h);
      var k := ReachableIsOnTrack(p, ps, es, h);
      assert IsStep(p, ps[k], ps[k + 1], es[k]);
      j := k + 1;
    }
  }

  /** `--` undoes `++` wherever iteration from the start can be. */
  lemma DecrementUndoesIncrement(p: string, i: nat)
    requires Collapsed(p) && NoDrive(p) && i < |p| && Reachable(p, i)
    ensures Decrement(p, NextPos(p, i)) == i
  {
    RenderParse(p);
    var es := Elements(Parse(p));
    var ps := TrackOf(Parse(p));
    var j := ReachableIsOnTrack(p, ps, es, i);
    assert IsStep(p, ps[j], ps[j + 1], es[j]);
  }

  /** Exactly if no drive is split off: behind one, decrement goes back to its start. */
  lemma DecrementUndoesIncrementIff(p: string)
    requires Collapsed(p)
    ensures (forall i: nat :: i < |p| && Reachable(p, i) ==> Decrement(p, NextPos(p, i)) == i) <==> NoDrive(p)
  {
    if NoDrive(p) {
      forall i: nat | i < |p| && Reachable(p, i)
        ensures Decrement(p, NextPos(p, i)) == i
      {
        DecrementUndoesIncrement(p, i);
      }
    } else {
      RenderParse(p);
      DriveShows(Parse(p));
      DecrementSkipsDrive(Parse(p));
    }
  }

  lemma DecrementSkipsDrive(v: Path)
    requires HasDrive(v)
    ensures |Render(v)| > 2 && Reachable(Render(v), 2) && Decrement(Render(v), NextPos(Render(v), 2)) == 0
  {
    DriveSteps(v);
    NameStepBack(v, 0);
    assert Reachable(Render(v), 0);
  }

  // ---------- the code ----------

  /** In a collapsed path without drive, `at` is the position that the increment took to `pos`. */
  ghost predicate Undoes(path: string, pos: nat, at: nat) {
    Collapsed(path) && NoDrive(path) ==>
      forall i | 0 <= i < |path| && Reachable(path, i) && NextPos(path, i) == pos :: at == i
  }

  lemma DecrementUndoesAll(path: string, pos: nat)
    requires pos <= |path|
    ensures Undoes(path, pos, Decrement(path, pos))
  {
    if Collapsed(path) && NoDrive(path) {
      forall i | 0 <= i < |path| && Reachable(path, i) && NextPos(path, i) == pos
        ensures Decrement(path, pos) == i
      {
        DecrementUndoesIncrement(path, i);
      }
    }
  }

  class Iterator {
    const path: string
    const root: nat
    var iter: nat
    var current: string

    ghost predicate Valid()
      reads this
    {
      iter <= |path| && root == RootPos(path) && current == Current(path, iter)
    }

    constructor (path: string, pos: nat)
      requires pos <= |path|
      ensures Valid() && this.path == path && iter == pos
    {
      this.path := path;
      this.root := RootPos(path);
      this.iter := pos;
      this.current := Current(path, pos);
    }

    method IncrementFrom(pos: nat) returns (i: nat)
      requires pos <= |path|
      ensures i == Increment(path, pos)
    {
      i := pos;
      if i != |path| {
        i := i + 1;
        if path[pos] == SLASH {
          if i != |path| && path[i] == SLASH {
            if pos == 0 && !(i + 1 != |path| && path[i + 1] == SLASH) {
              i := Find(path, i + 1);
            } else {
              while i != |path| && path[i] == SLASH
                invariant i <= |path| && SkipSlashes(path, i) == SkipSlashes(path, pos + 1)
                decreases |path| - i
              {
                i := i + 1;
              }
            }
          }
        } else if pos == 0 && i != |path| && path[i] == ':' {
          i := i + 1;
        } else {
          i := Find(path, i);
        }
      }
    }

    /** `operator++`. */
    method Next()
      requires Valid()
      modifies this
      ensures Valid() && iter == NextPos(path, old(iter))
      ensures old(iter) < |path| ==> old(iter) < iter
    {
      iter := IncrementFrom(iter);
      while iter != |path| && iter != root && path[iter] == SLASH && iter + 1 != |path|
        invariant iter <= |path| && Advance(path, iter) == NextPos(path, old(iter))
        decreases |path| - iter
      {
        iter := iter + 1;
      }
      current := Current(path, iter);
    }

    /** `operator--`. */
    method Prev()
      requires Valid()
      modifies this
      ensures Valid() && iter == Decrement(path, old(iter))
      ensures Undoes(path, old(iter), iter)
    {
      DecrementUndoesAll(path, iter);
      if iter != 0 {
        iter := iter - 1;
        if iter != root && (iter + 1 != |path| || path[iter] != SLASH) {
          iter := FindBack(path, iter);
          if iter == 2 && path[0] == SLASH && path[1] == SLASH {
            iter := 0;
          }
        }
      }
      current := Current(path, iter);
    }
  }
}
