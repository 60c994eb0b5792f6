/**
  What a path text means: a root name, a root directory, a list of names and possibly a
  trailing separator (section 30.10.8.1 of ISO C++17). Collapsed texts and well-formed
  views correspond one to one.
  */
module PathView {
  import opened PathText

  datatype View = View(root: string, dir: bool, names: seq<string>, slash: bool)

  const EMPTY := View("", false, [], false)

  predicate IsName(n: string) {
    n != "" && SLASH !in n
  }

  /** A root name: two slashes and a host name. */
  predicate IsRoot(r: string) {
    r == "" || (|r| > 2 && r[0] == SLASH && r[1] == SLASH && SLASH !in r[2..])
  }

  predicate AllNames(ns: seq<string>) {
    forall i :: 0 <= i < |ns| ==> IsName(ns[i])
  }

  predicate WellFormed(v: View) {
    && IsRoot(v.root)
    && AllNames(v.names)
    && (v.slash ==> v.names != [])
    && (v.root != "" && v.names != [] ==> v.dir)
  }

  type Path = v: View | WellFormed(v) witness EMPTY

  /** The names, each followed by a slash. */
  function Terminated(ns: seq<string>): string {
    if ns == [] then "" else ns[0] + [SLASH] + Terminated(ns[1..])
  }

  function Head(v: View): string {
    v.root + (if v.dir then [SLASH] else "")
  }

  function Tail(v: View): string {
    var t := Terminated(v.names);
    if v.slash || t == "" then t else t[..|t| - 1]
  }

  function Render(v: View): string {
    Head(v) + Tail(v)
  }

  function NamesAndEnd(ns: seq<string>, slash: bool): seq<string> {
    ns + (if slash then [""] else [])
  }

  /** The elements behind the root name. */
  function Unrooted(v: View): seq<string> {
    (if v.dir then [[SLASH]] else []) + NamesAndEnd(v.names, v.slash)
  }

  /** The elements of a path, as iteration lists them. */
  function Elements(v: View): seq<string> {
    (if v.root == "" then [] else [v.root]) + Unrooted(v)
  }

  // ---------- names between slashes ----------

  lemma {:induction false} TerminatedAppend(a: seq<string>, b: seq<string>)
    ensures Terminated(a + b) == Terminated(a) + Terminated(b)
  {
    if a == [] {
      assert a + b == b;
    } else {
      assert (a + b)[1..] == a[1..] + b;
      TerminatedAppend(a[1..], b);
    }
  }

  lemma TerminatedLast(ns: seq<string>)
    requires ns != []
    ensures Terminated(ns) == Terminated(ns[..|ns| - 1]) + ns[|ns| - 1] + [SLASH]
  {
    var front, n := ns[..|ns| - 1], ns[|ns| - 1];
    assert ns == front + [n];
    TerminatedAppend(front, [n]);
    TerminatedOne(n);
    Joined(Terminated(front), n, [SLASH]);
  }

  lemma TerminatedOne(n: string)
    ensures Terminated([n]) == n + [SLASH]
  {
    assert Terminated([n][1..]) == "";
  }

  lemma Joined(a: string, b: string, c: string)
    ensures a + (b + c) == a + b + c
  {
  }

  lemma TerminatedAt(ns: seq<string>, k: nat)
    requires k < |ns|
    ensures Terminated(ns) == Terminated(ns[..k]) + Terminated(ns[k..])
    ensures Terminated(ns[k..]) == ns[k] + [SLASH] + Terminated(ns[k + 1..])
  {
    assert ns == ns[..k] + ns[k..];
    TerminatedAppend(ns[..k], ns[k..]);
  }

  function SplitNames(t: string): seq<string>
    decreases |t|
  {
    if t == "" then []
    else
      var j := Find(t, 0);
      [t[..j]] + (if j == |t| then [] else SplitNames(t[j + 1..]))
  }

  lemma {:induction false} SplitTerminated(ns: seq<string>)
    requires AllNames(ns)
    ensures SplitNames(Terminated(ns)) == ns
  {
    if ns != [] {
      var t := Terminated(ns);
      assert t[0..|ns[0]|] == ns[0];
      FindIs(t, 0, |ns[0]|);
      assert t[|ns[0]| + 1..] == Terminated(ns[1..]);
      SplitTerminated(ns[1..]);
    }
  }

  /** A text of names: no slash at the start, none doubled, one at the end. */
  predicate IsTerminated(t: string) {
    t != "" ==> t[0] != SLASH && NoDoubleSlash(t) && t[|t| - 1] == SLASH
  }

  lemma TerminatedRest(t: string)
    requires IsTerminated(t) && t != ""
    ensures var j := Find(t, 0);
            j < |t| && IsName(t[..j]) && IsTerminated(t[j + 1..]) && t == t[..j] + [SLASH] + t[j + 1..]
  {
    var j := Find(t, 0);
    assert t[0..j] == t[..j];
    FindReachesLast(t);
    CutAt(t, j);
    NoDoubleSlashSuffix(t, j + 1);
    if j + 1 < |t| {
      assert !DoubleAt(t, j);
    }
  }

  lemma FindReachesLast(t: string)
    requires t != "" && t[|t| - 1] == SLASH
    ensures Find(t, 0) < |t|
  {
    assert t[|t| - 1] in t[0..|t|];
  }

  lemma {:induction false} TerminatedSplit(t: string)
    requires IsTerminated(t)
    ensures Terminated(SplitNames(t)) == t && AllNames(SplitNames(t))
    decreases |t|
  {
    if t != "" {
      var j := Find(t, 0);
      TerminatedRest(t);
      TerminatedSplit(t[j + 1..]);
      assert SplitNames(t)[1..] == SplitNames(t[j + 1..]);
    }
  }

  // ---------- parsing ----------

  function RootLength(p: string): (n: nat)
    ensures n <= |p|
  {
    if HasHostSlashes(p) then Find(p, 2) else 0
  }

  predicate HasDir(p: string) {
    RootLength(p) < |p| && p[RootLength(p)] == SLASH
  }

  /** The text behind the root name and the root directory. */
  function Rest(p: string): string {
    p[(if HasDir(p) then RootLength(p) + 1 else RootLength(p))..]
  }

  /** Names separated by slashes, with or without one at the end. */
  function NamesIn(rest: string): seq<string> {
    if rest == "" then []
    else if rest[|rest| - 1] == SLASH then SplitNames(rest)
    else SplitNames(rest + [SLASH])
  }

  function Parse(p: string): View {
    View(p[..RootLength(p)], HasDir(p), NamesIn(Rest(p)), Rest(p) != "" && Rest(p)[|Rest(p)| - 1] == SLASH)
  }

  lemma NameHasNoSlash(n: string)
    requires SLASH !in n
    ensures NoDoubleSlash(n)
  {
  }

  lemma {:induction false} TerminatedIsTerminated(ns: seq<string>)
    requires AllNames(ns)
    ensures IsTerminated(Terminated(ns)) && (ns != [] ==> |Terminated(ns)| > 1)
  {
    if ns != [] {
      TerminatedIsTerminated(ns[1..]);
      NameHasNoSlash(ns[0]);
      NoDoubleSlashConcat(ns[0], [SLASH]);
      NoDoubleSlashConcat(ns[0] + [SLASH], Terminated(ns[1..]));
    }
  }

  lemma TailIs(v: Path)
    ensures v.names == [] ==> Tail(v) == ""
    ensures v.names != [] ==>
              && Tail(v) != "" && Tail(v)[0] != SLASH && NoDoubleSlash(Tail(v))
              && (v.slash <==> Tail(v)[|Tail(v)| - 1] == SLASH)
              && Terminated(v.names) == if v.slash then Tail(v) else Tail(v) + [SLASH]
  {
    if v.names != [] {
      TerminatedIsTerminated(v.names);
      var t := Terminated(v.names);
      assert NoDoubleSlash(t);
      assert t == t[..|t| - 1] + [SLASH];
      if !v.slash {
        assert !DoubleAt(t, |t| - 2);
        NoDoubleSlashPrefix(t, |t| - 1);
      }
    }
  }

  /** Rendering a view and parsing the text gives the view back. */
  lemma ParseRender(v: Path)
    ensures Parse(Render(v)) == v
  {
    RestOfRender(v);
    NamesInTail(v);
    assert Render(v)[..|v.root|] == v.root;
  }

  lemma RestOfRender(v: Path)
    ensures RootLength(Render(v)) == |v.root| && HasDir(Render(v)) == v.dir && Rest(Render(v)) == Tail(v)
  {
    RootLengthOfRender(v);
    assert Render(v)[|Head(v)|..] == Tail(v);
  }

  lemma NamesInTail(v: Path)
    ensures NamesIn(Tail(v)) == v.names && (v.slash <==> Tail(v) != "" && Tail(v)[|Tail(v)| - 1] == SLASH)
  {
    TailIs(v);
    SplitTerminated(v.names);
  }

  lemma RootLengthOfRender(v: Path)
    ensures RootLength(Render(v)) == |v.root|
    ensures v.dir <==> |v.root| < |Render(v)| && Render(v)[|v.root|] == SLASH
  {
    var p := Render(v);
    TailIs(v);
    if v.root != "" {
      assert p[2] == v.root[2] && v.root[2] == v.root[2..][0];
      assert p[2..|v.root|] == v.root[2..];
      FindIs(p, 2, |v.root|);
    }
  }

  lemma HeadThenTail(host: string, dir: string, tail: string)
    requires SLASH !in host && (dir == "" || dir == [SLASH]) && NoDoubleSlash(tail)
    requires tail != "" ==> tail[0] != SLASH
    ensures NoDoubleSlash(host + dir + tail)
  {
    NameHasNoSlash(host);
    NoDoubleSlashConcat(host, dir);
    NoDoubleSlashConcat(host + dir, tail);
  }

  /** Every well-formed view renders to a collapsed text. */
  lemma RenderIsCollapsed(v: Path)
    ensures Collapsed(Render(v))
  {
    TailIs(v);
    var dir := if v.dir then [SLASH] else "";
    if v.root == "" {
      HeadThenTail("", dir, Tail(v));
      assert Render(v) == "" + dir + Tail(v);
    } else {
      var host := v.root[2..];
      HeadThenTail(host, dir, Tail(v));
      assert Render(v)[2..] == host + dir + Tail(v);
      assert Render(v)[2] == host[0];
    }
  }

  lemma RestSplits(rest: string)
    requires rest != "" && rest[0] != SLASH && NoDoubleSlash(rest)
    ensures NamesIn(rest) != [] && AllNames(NamesIn(rest))
    ensures Terminated(NamesIn(rest)) == if rest[|rest| - 1] == SLASH then rest else rest + [SLASH]
  {
    if rest[|rest| - 1] != SLASH {
      NoDoubleSlashConcat(rest, [SLASH]);
      TerminatedSplit(rest + [SLASH]);
    } else {
      TerminatedSplit(rest);
    }
  }

  lemma TailOfParse(p: string)
    requires Rest(p) != "" ==> Rest(p)[0] != SLASH && NoDoubleSlash(Rest(p))
    ensures Tail(Parse(p)) == Rest(p)
  {
    if Rest(p) != "" {
      RestSplits(Rest(p));
      assert (Rest(p) + [SLASH])[..|Rest(p)|] == Rest(p);
    }
  }

  lemma HeadOfParse(p: string)
    ensures p == Head(Parse(p)) + Rest(p)
  {
  }

  /** Every collapsed text is the rendering of its view. */
  lemma RenderParse(p: string)
    requires Collapsed(p)
    ensures WellFormed(Parse(p)) && Render(Parse(p)) == p
  {
    RestIsNames(p);
    RootIsRoot(p);
    TailOfParse(p);
    HeadOfParse(p);
    if Rest(p) != "" {
      RestSplits(Rest(p));
    }
  }

  lemma RootIsRoot(p: string)
    ensures IsRoot(p[..RootLength(p)])
  {
    if HasHostSlashes(p) {
      var n := RootLength(p);
      FindSkips(p, 2);
      assert p[..n][2..] == p[2..n];
    }
  }

  lemma FindSkips(p: string, i: nat)
    requires i < |p| && p[i] != SLASH
    ensures Find(p, i) > i
  {
  }

  /** Behind the root, a collapsed text is a list of names. */
  lemma RestIsNames(p: string)
    requires Collapsed(p)
    ensures HasHostSlashes(p) && !HasDir(p) ==> Rest(p) == ""
    ensures NoDoubleSlash(Rest(p)) && (Rest(p) != "" ==> Rest(p)[0] != SLASH)
  {
    if HasHostSlashes(p) {
      BehindDir(p[2..], RootLength(p) - 2);
      assert p[2..][RootLength(p) - 2..] == p[RootLength(p)..];
      assert HasDir(p) ==> p[2..][RootLength(p) - 1..] == Rest(p);
    } else {
      BehindDir(p, 0);
      assert p[0..] == p;
    }
  }

  lemma BehindDir(q: string, n: nat)
    requires NoDoubleSlash(q) && n <= |q|
    ensures NoDoubleSlash(q[n..])
    ensures n < |q| && q[n] == SLASH ==> NoDoubleSlash(q[n + 1..]) && (n + 1 < |q| ==> q[n + 1] != SLASH)
  {
    NoDoubleSlashSuffix(q, n);
    if n + 1 <= |q| {
      NoDoubleSlashSuffix(q, n + 1);
    }
    if n + 1 < |q| {
      assert !DoubleAt(q, n);
    }
  }

  /** Distinct views have distinct texts. */
  lemma RenderInjective(v: Path, w: Path)
    requires Render(v) == Render(w)
    ensures v == w
  {
    ParseRender(v);
    ParseRender(w);
  }
}
