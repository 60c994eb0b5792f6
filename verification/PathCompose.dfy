/**
  Decomposition (section 30.10.8.4.9 of ISO C++17) and append (30.10.8.4.3): the text
  functions follow the code, and each is shown to act on views.
  */
module PathCompose {
  import opened PathText
  import opened PathView
  import opened PathIterator

  // ---------- decomposition, as coded ----------

  /** `find_first_of("/\\", i)`. */
  function FindSeparator(s: string, i: nat): (j: nat)
    requires i <= |s|
    ensures i <= j <= |s|
    decreases |s| - i
  {
    if i == |s| || s[i] == SLASH || s[i] == '\\' then i else FindSeparator(s, i + 1)
  }

  function RootName(p: string): string {
    if |p| > 2 && p[0] == SLASH && p[1] == SLASH && p[2] != SLASH && IsPrint(p[2]) then
      Collapse(p[..FindSeparator(p, 3)])
    else ""
  }

  function RootDirectory(p: string): string {
    var root := RootName(p);
    if |p| > |root| && p[|root|] == SLASH then [SLASH] else ""
  }

  function RootPath(p: string): string {
    Collapse(RootName(p) + RootDirectory(p))
  }

  function RelativePath(p: string): string {
    var root := RootPath(p);
    Collapse(p[(if |root| <= |p| then |root| else |p|)..])
  }

  function Filename(p: string): string {
    if RelativePath(p) == "" then "" else Current(p, Decrement(p, |p|))
  }

  predicate IsAbsolute(p: string) {
    RootDirectory(p) != ""
  }

  function RemoveFilename(p: string): string {
    if Filename(p) != "" && |Filename(p)| <= |p| then p[..|p| - |Filename(p)|] else p
  }

  // ---------- append, as coded ----------

  predicate EndsInSlash(a: string) {
    a != "" && a[|a| - 1] == SLASH
  }

  predicate EndsInColon(a: string) {
    a != "" && a[|a| - 1] == ':'
  }

  /** The loop of `operator/=` over the elements that are left. */
  function AppendElements(a: string, es: seq<string>, first: bool): string
    decreases |es|
  {
    if es == [] then a
    else AppendElements((if !first && !EndsInSlash(a) then a + [SLASH] else a) + es[0], es[1..], false)
  }

  function Append(a: string, b: string): string {
    if b == "" then
      if a != "" && a[|a| - 1] != SLASH && a[|a| - 1] != ':' then a + [SLASH] else a
    else if (IsAbsolute(b) && (a != RootName(a) || b != [SLASH])) || (RootName(b) != "" && RootName(b) != RootName(a)) then b
    else
      var start := if RootDirectory(b) != "" then RootName(a)
                   else if (RootDirectory(a) == "" && IsAbsolute(a)) || Filename(a) != "" then a + [SLASH]
                   else a;
      AppendElements(start, ElementsFrom(b, if RootName(b) != "" then NextPos(b, 0) else 0), true)
  }

  // ---------- hosts and names that need care ----------

  /** A host name that `root_name` recognises: it starts with a printable character and has
      no backslash behind it. */
  predicate Hosted(v: View) {
    v.root != "" ==> |v.root| > 2 && IsPrint(v.root[2]) && '\\' !in v.root[3..]
  }

  /** A name without the colons that the iterator and `operator/=` treat specially. */
  predicate IsPlain(n: string) {
    !IsDrive(n) && !EndsInColon(n)
  }

  predicate Tame(v: View) {
    Hosted(v) && forall i :: 0 <= i < |v.names| ==> IsPlain(v.names[i])
  }

  predicate IsTame(p: string) {
    Collapsed(p) && Tame(Parse(p))
  }

  /** Tame views are taken as they are by the iterator and by `operator/=`. */
  lemma TameIsTaken(v: Path)
    requires Tame(v)
    ensures Split(v) == v && NoDrive(Render(v)) && !(v.names != [] && ColonAtEnd(v))
    ensures ElementsFrom(Render(v), 0) == Elements(v)
  {
    DriveShows(v);
    IterationSplitsDrive(v);
  }

  lemma {:induction false} FindSeparatorIs(s: string, i: nat, j: nat)
    requires i <= j <= |s| && SLASH !in s[i..j] && '\\' !in s[i..j] && (j < |s| ==> s[j] == SLASH)
    ensures FindSeparator(s, i) == j
    decreases j - i
  {
    if i < j {
      assert s[i..j] == [s[i]] + s[i + 1..j];
      FindSeparatorIs(s, i + 1, j);
    }
  }

  // ---------- decomposition of a view's text ----------

  lemma {:induction false} FindSeparatorStops(s: string, i: nat, k: nat)
    requires i <= k < |s| && s[k] == '\\'
    ensures FindSeparator(s, i) <= k
    decreases k - i
  {
    if i < k && s[i] != SLASH && s[i] != '\\' {
      FindSeparatorStops(s, i + 1, k);
    }
  }

  /** The root name is the host part, if and only if the host is one that is recognised. */
  lemma RootNameIsIff(v: Path)
    ensures RootName(Render(v)) == v.root <==> Hosted(v)
  {
    if v.root == "" {
      RootLengthOfRender(v);
      NoHostWithoutRoot(v);
    } else {
      var p, n := Render(v), |v.root|;
      RootText(v);
      RootIsCollapsed(v.root);
      assert p[2] == v.root[2];
      assert p[3..n] == v.root[3..];
      if Hosted(v) {
        assert p[2..n] == [p[2]] + p[3..n];
        FindSeparatorIs(p, 3, n);
      } else if IsPrint(v.root[2]) {
        var k :| 0 <= k < |v.root[3..]| && v.root[3..][k] == '\\';
        assert p[3 + k] == p[3..n][k];
        FindSeparatorStops(p, 3, 3 + k);
        CollapseShortens(p[..FindSeparator(p, 3)]);
      }
    }
  }

  lemma CollapseShortens(p: string)
    ensures |Collapse(p)| <= |p|
  {
    if HasHostSlashes(p) {
      SqueezeFixed(p[2..]);
    } else {
      SqueezeFixed(p);
    }
  }

  lemma NoHostWithoutRoot(v: Path)
    requires v.root == ""
    ensures !HasHostSlashes(Render(v))
  {
    RootLengthOfRender(v);
  }

  lemma HeadIsCollapsed(v: Path)
    ensures Collapse(Head(v)) == Head(v)
  {
    var head := View(v.root, v.dir, [], false);
    assert Render(head) == Head(v);
    RenderIsCollapsed(head);
    CollapseFixed(Head(v));
  }

  lemma RootDirectoryIs(v: Path)
    requires Hosted(v)
    ensures RootDirectory(Render(v)) == (if v.dir then [SLASH] else "")
    ensures RootPath(Render(v)) == Head(v)
  {
    RootNameIsIff(v);
    RootLengthOfRender(v);
    HeadIsCollapsed(v);
  }

  lemma RelativePathIs(v: Path)
    requires Hosted(v)
    ensures RelativePath(Render(v)) == Tail(v) && (Tail(v) == "" <==> v.names == [])
  {
    RootDirectoryIs(v);
    TailIs(v);
    assert Render(v)[|Head(v)|..] == Tail(v);
    CollapseFixed(Tail(v));
  }

  /** The last name; of a single name that looks like a drive, the drive. */
  function FileOf(v: View): string {
    if v.names == [] || v.slash then ""
    else if HasDrive(v) && |v.names| == 1 then v.names[0][..2]
    else v.names[|v.names| - 1]
  }

  lemma FilenameIs(v: Path)
    requires Hosted(v)
    ensures Filename(Render(v)) == FileOf(v)
  {
    RelativePathIs(v);
    if v.names != [] {
      LastIs(v);
    }
  }

  lemma LastIs(v: Path)
    requires v.names != []
    ensures Current(Render(v), Decrement(Render(v), |Render(v)|)) == FileOf(v)
  {
    var k := |v.names| - 1;
    if v.slash {
      TrailingStep(v);
    } else {
      NameStepBack(v, k);
      if HasDrive(v) && k == 0 {
        DriveSteps(v);
      } else {
        NoDriveAt(v, k);
        NameStep(v, k);
      }
    }
  }

  lemma NoDriveAt(v: Path, k: nat)
    requires k < |v.names| && !(HasDrive(v) && k == 0)
    ensures NamePos(v, k) == 0 ==> NoDrive(Render(v))
  {
    DriveShows(v);
  }

  // ---------- append on views ----------

  function TailOf(ns: seq<string>, slash: bool): string {
    Tail(View("", false, ns, slash))
  }

  /** What comes behind a name: further names and a separator at the end. */
  function More(ns: seq<string>, slash: bool): string {
    if ns != [] then [SLASH] + TailOf(ns, slash) else if slash then [SLASH] else ""
  }

  lemma TailCons(ns: seq<string>, slash: bool)
    requires ns != []
    ensures TailOf(ns, slash) == ns[0] + More(ns[1..], slash)
  {
    var n, r := ns[0] + [SLASH], Terminated(ns[1..]);
    assert Terminated(ns) == n + r;
    if |ns| > 1 {
      assert r != "";
      TailOfAppend(n, r);
      Joined(ns[0], [SLASH], TailOf(ns[1..], slash));
    } else {
      TailOfOne(ns[0], slash);
      assert ns == [ns[0]] && ns[1..] == [];
    }
  }

  lemma TailOfOne(n: string, slash: bool)
    ensures TailOf([n], slash) == n + if slash then [SLASH] else ""
  {
    TerminatedOne(n);
    assert (n + [SLASH])[..|n|] == n && n + "" == n;
  }

  lemma LastOfName(a: string, n: string)
    requires IsName(n)
    ensures !EndsInSlash(a + n)
  {
    assert (a + n)[|a + n| - 1] == n[|n| - 1];
  }

  /** The loop writes the names with single slashes between them. */
  lemma {:induction false} AppendNames(a: string, ns: seq<string>, slash: bool)
    requires ns != [] && AllNames(ns)
    ensures AppendElements(a, NamesAndEnd(ns, slash), true) == a + TailOf(ns, slash)
  {
    assert NamesAndEnd(ns, slash)[1..] == NamesAndEnd(ns[1..], slash);
    AppendMoreNames(a + ns[0], ns[1..], slash, a, ns[0]);
    TailCons(ns, slash);
  }

  lemma {:induction false} AppendMoreNames(a: string, ns: seq<string>, slash: bool, before: string, n: string)
    requires AllNames(ns) && IsName(n) && a == before + n
    ensures AppendElements(a, NamesAndEnd(ns, slash), false) == a + More(ns, slash)
    decreases |ns|
  {
    LastOfName(before, n);
    if ns == [] {
      AppendEnd(a, slash);
    } else {
      var es := NamesAndEnd(ns, slash);
      AppendElement(a, es);
      AppendMoreNames(a + [SLASH] + ns[0], ns[1..], slash, a + [SLASH], ns[0]);
      assert es[1..] == NamesAndEnd(ns[1..], slash);
      TailCons(ns, slash);
      Joined(a + [SLASH], ns[0], More(ns[1..], slash));
      Joined(a, [SLASH], TailOf(ns, slash));
    }
  }

  lemma AppendEnd(a: string, slash: bool)
    requires !EndsInSlash(a)
    ensures AppendElements(a, NamesAndEnd([], slash), false) == a + More([], slash)
  {
    if slash {
      AppendElement(a, [""]);
      assert a + [SLASH] + "" == a + [SLASH];
    } else {
      assert a + "" == a;
    }
  }

  lemma AppendElement(a: string, es: seq<string>)
    requires es != [] && !EndsInSlash(a)
    ensures AppendElements(a, es, false) == AppendElements(a + [SLASH] + es[0], es[1..], false)
  {
  }

  predicate IsRootOnly(v: View) {
    !v.dir && v.names == []
  }

  /** The text ends in a colon. */
  predicate ColonAtEnd(v: View) {
    !v.slash && EndsInColon(if v.names != [] then v.names[|v.names| - 1] else if v.dir then "" else v.root)
  }

  /** `operator/=` on views. */
  function AppendView(v: View, w: View): View
    requires w.slash ==> w.names != []
  {
    if w == EMPTY then
      if v == EMPTY || v.slash || ColonAtEnd(v) then v
      else if v.names == [] then v.(dir := true)
      else v.(slash := true)
    else if (w.dir && !(IsRootOnly(v) && w == View("", true, [], false))) || (w.root != "" && w.root != v.root) then w
    else if w.dir then v.(dir := true)
    else if w.root != "" then
      if v.names != [] then v.(slash := true) else v
    else AppendNamesView(v, Split(w).names, w.slash)
  }

  function AppendNamesView(v: View, ns: seq<string>, slash: bool): View
    requires ns != []
  {
    if IsRootOnly(v) && v.root != "" then
      // a root name swallows the first name: there is no separator between them
      View(v.root + ns[0], |ns| > 1 || slash, ns[1..], slash && |ns| > 1)
    else View(v.root, v.dir, v.names + ns, slash)
  }

  // ---------- what the code reads off a view's text ----------

  function Closing(v: View): string {
    if v.names == [] || v.slash then "" else [SLASH]
  }

  /** `operator/=` with the answers to its questions about both paths filled in. */
  function AppendGiven(a: string, rootA: string, fileA: bool,
                       b: string, rootB: string, dirB: bool, es: seq<string>): string {
    if b == "" then
      if a != "" && a[|a| - 1] != SLASH && a[|a| - 1] != ':' then a + [SLASH] else a
    else if (dirB && (a != rootA || b != [SLASH])) || (rootB != "" && rootB != rootA) then b
    else AppendElements(if dirB then rootA else if fileA then a + [SLASH] else a, es, true)
  }

  lemma AppendAsked(a: string, b: string, es: seq<string>)
    requires es == ElementsFrom(b, if RootName(b) != "" then NextPos(b, 0) else 0)
    ensures Append(a, b) == AppendGiven(a, RootName(a), Filename(a) != "", b, RootName(b), RootDirectory(b) != "", es)
  {
    assert IsAbsolute(a) <==> RootDirectory(a) != "";
    assert IsAbsolute(b) <==> RootDirectory(b) != "";
  }

  lemma ElementsBehindFirst(p: string, es: seq<string>)
    requires p != "" && ElementsFrom(p, 0) == es
    ensures es != [] && ElementsFrom(p, NextPos(p, 0)) == es[1..]
  {
  }

  lemma UnrootedElements(v: Path)
    ensures v.root != "" ==> Render(v) != "" && ElementsFrom(Render(v), NextPos(Render(v), 0)) == Unrooted(Split(v))
    ensures v.root == "" ==> ElementsFrom(Render(v), 0) == Unrooted(Split(v))
  {
    IterationSplitsDrive(v);
    if v.root != "" {
      ElementsBehindFirst(Render(v), Elements(v));
      assert Elements(v)[1..] == Unrooted(v);
    } else {
      assert Elements(Split(v)) == Unrooted(Split(v));
    }
  }

  lemma AppendByViews(v: Path, w: Path)
    requires Hosted(v) && Hosted(w)
    ensures Append(Render(v), Render(w)) ==
            AppendGiven(Render(v), v.root, v.names != [] && !v.slash, Render(w), w.root, w.dir, Unrooted(Split(w)))
  {
    RootNameIsIff(v);
    FilenameIs(v);
    RootNameIsIff(w);
    RootDirectoryIs(w);
    UnrootedElements(w);
    AppendAsked(Render(v), Render(w), Unrooted(Split(w)));
  }

  /** The text of a view, without parsing it. */
  lemma TextIs(v: Path)
    ensures Render(v) == "" <==> v == EMPTY
    ensures EndsInSlash(Render(v)) <==> v.slash || (v.names == [] && v.dir)
    ensures EndsInColon(Render(v)) <==> ColonAtEnd(v)
    ensures Render(v) + Closing(v) == Head(v) + Terminated(v.names)
    ensures Render(v) == v.root <==> IsRootOnly(v)
    ensures Render(v) == [SLASH] <==> v == View("", true, [], false)
  {
    TailIs(v);
    if v.names == [] && !v.dir {
      RootIsCollapsed(v.root);
    }
    if Render(v) == [SLASH] {
      RootLengthOfRender(v);
    }
    if v.names != [] {
      LastCharIs(v);
    }
  }

  lemma LastCharIs(v: Path)
    requires v.names != []
    ensures EndsInColon(Render(v)) <==> ColonAtEnd(v)
  {
    var k := |v.names| - 1;
    TailIs(v);
    NameBounds(v, k);
    NameText(v, k);
    if !v.slash {
      assert Render(v)[|Render(v)| - 1] == v.names[k][|v.names[k]| - 1];
    }
  }

  // ---------- append acts on views ----------

  lemma TailOfAppend(a: string, b: string)
    requires b != ""
    ensures (a + b)[..|a + b| - 1] == a + b[..|b| - 1]
  {
  }

  lemma TailNames(ms: seq<string>, ns: seq<string>, slash: bool)
    requires ns != []
    ensures TailOf(ms + ns, slash) == Terminated(ms) + TailOf(ns, slash)
  {
    TerminatedAppend(ms, ns);
    TailOfAppend(Terminated(ms), Terminated(ns));
  }

  lemma RenderNames(v: View, ns: seq<string>, slash: bool)
    requires ns != []
    ensures Render(View(v.root, v.dir, v.names + ns, slash)) == Head(v) + Terminated(v.names) + TailOf(ns, slash)
  {
    TailNames(v.names, ns, slash);
    assert Tail(View(v.root, v.dir, v.names + ns, slash)) == TailOf(v.names + ns, slash);
  }

  /** A root name right in front of a name swallows it. */
  lemma RenderGlued(v: View, ns: seq<string>, slash: bool)
    requires IsRootOnly(v) && ns != []
    ensures Render(View(v.root + ns[0], |ns| > 1 || slash, ns[1..], slash && |ns| > 1)) == v.root + TailOf(ns, slash)
  {
    TailCons(ns, slash);
    if |ns| > 1 {
      Joined(v.root + ns[0], [SLASH], TailOf(ns[1..], slash));
    } else {
      assert ns[1..] == [];
    }
    Joined(v.root, ns[0], More(ns[1..], slash));
    GluedText(v.root + ns[0], ns[1..], slash);
  }

  lemma GluedText(r: string, ns: seq<string>, slash: bool)
    ensures Render(View(r, ns != [] || slash, ns, slash && ns != [])) == r + More(ns, slash)
  {
    var v := View(r, ns != [] || slash, ns, slash && ns != []);
    if ns != [] {
      assert Tail(v) == TailOf(ns, slash);
      Joined(r, [SLASH], TailOf(ns, slash));
    } else {
      assert Tail(v) == "" && Render(v) == Head(v);
    }
  }

  lemma ViewAppendsNames(v: View, ns: seq<string>, slash: bool)
    requires ns != []
    ensures Render(AppendNamesView(v, ns, slash)) == Head(v) + Terminated(v.names) + TailOf(ns, slash)
  {
    if IsRootOnly(v) && v.root != "" {
      RenderGlued(v, ns, slash);
    } else {
      RenderNames(v, ns, slash);
    }
  }

  lemma GivenNames(a: string, rootA: string, fileA: bool, b: string, ns: seq<string>, slash: bool)
    requires b != "" && ns != [] && AllNames(ns)
    ensures AppendGiven(a, rootA, fileA, b, "", false, NamesAndEnd(ns, slash)) ==
            (if fileA then a + [SLASH] else a) + TailOf(ns, slash)
  {
    AppendNames(if fileA then a + [SLASH] else a, ns, slash);
  }

  lemma AppendRelative(v: Path, b: string, ns: seq<string>, slash: bool)
    requires b != "" && ns != [] && AllNames(ns)
    ensures AppendGiven(Render(v), v.root, v.names != [] && !v.slash, b, "", false, NamesAndEnd(ns, slash))
            == Render(AppendNamesView(v, ns, slash))
  {
    TextIs(v);
    ViewAppendsNames(v, ns, slash);
    GivenNames(Render(v), v.root, v.names != [] && !v.slash, b, ns, slash);
  }

  lemma AppendEmpty(v: Path)
    ensures AppendGiven(Render(v), v.root, v.names != [] && !v.slash, "", "", false, []) == Render(AppendView(v, EMPTY))
  {
    TextIs(v);
  }

  /** The branches that copy the right-hand side or only add a separator. */
  lemma AppendRooted(v: Path, w: Path)
    requires (w.dir || w.root != "")
    ensures AppendGiven(Render(v), v.root, v.names != [] && !v.slash, Render(w), w.root, w.dir, Unrooted(w))
            == Render(AppendView(v, w))
  {
    TextIs(v);
    TextIs(w);
    if w.dir {
      if w == View("", true, [], false) {
        assert Unrooted(w) == [[SLASH]];
        assert AppendElements(v.root + [SLASH], [], false) == v.root + [SLASH];
      }
    } else {
      assert Unrooted(w) == [];
    }
  }

  /** `operator/=` is append on views. */
  lemma AppendIsAppendView(v: Path, w: Path)
    requires Hosted(v) && Hosted(w)
    ensures Append(Render(v), Render(w)) == Render(AppendView(v, w))
  {
    AppendByViews(v, w);
    if w.dir || w.root != "" {
      AppendRooted(v, w);
    } else if w.names == [] {
      AppendEmpty(v);
      assert Unrooted(w) == [];
    } else {
      SplitIsPath(w);
      TextIs(w);
      assert Unrooted(Split(w)) == NamesAndEnd(Split(w).names, w.slash);
      AppendRelative(v, Render(w), Split(w).names, w.slash);
    }
  }

  // ---------- the elements of a path as paths ----------

  /** A name, a root name, a slash or nothing, read as a path. */
  function ViewOf(e: string): View {
    if e == "" then EMPTY
    else if e == [SLASH] then View("", true, [], false)
    else if e[0] == SLASH then View(e, false, [], false)
    else View("", false, [e], false)
  }

  lemma NameAsPath(n: string)
    requires IsName(n)
    ensures ViewOf(n) == View("", false, [n], false) && WellFormed(ViewOf(n)) && Render(ViewOf(n)) == n
  {
    assert Terminated([n]) == n + [SLASH];
  }

  lemma RootAsPath(r: string)
    requires IsRoot(r) && r != ""
    ensures ViewOf(r) == View(r, false, [], false) && WellFormed(ViewOf(r)) && Render(ViewOf(r)) == r
  {
  }

  /** A name as it is appended: split if it looks like a drive. */
  function Pieces(n: string): seq<string> {
    if IsDrive(n) then [n[..2], n[2..]] else [n]
  }

  lemma AppendName(v: Path, n: string)
    requires Hosted(v) && IsName(n) && (v.root != "" ==> v.dir)
    ensures Append(Render(v), n) == Render(View(v.root, v.dir, v.names + Pieces(n), false))
  {
    NameAsPath(n);
    AppendIsAppendView(v, ViewOf(n));
    assert Split(ViewOf(n)).names == Pieces(n);
  }

  lemma AppendNothing(v: Path)
    requires Hosted(v)
    ensures Append(Render(v), "") == Render(AppendView(v, EMPTY))
  {
    AppendIsAppendView(v, EMPTY);
  }

  lemma AppendDir(r: string)
    requires IsRoot(r) && Hosted(View(r, false, [], false))
    ensures Append(r, [SLASH]) == r + [SLASH]
  {
    var v, w := View(r, false, [], false), View("", true, [], false);
    assert Render(v) == r && Render(w) == [SLASH] && Render(AppendView(v, w)) == r + [SLASH];
    AppendIsAppendView(v, w);
  }

  lemma AppendRootToEmpty(r: string)
    requires IsRoot(r) && r != "" && Hosted(View(r, false, [], false))
    ensures Append("", r) == r
  {
    RootAsPath(r);
    AppendIsAppendView(EMPTY, ViewOf(r));
  }

  // ---------- building a path from its elements ----------

  /** Folding elements onto a path; `parent_path` concatenates the root slash instead of
      appending it. */
  function Fold(a: string, es: seq<string>, concatSlash: bool): string
    decreases |es|
  {
    if es == [] then a
    else Fold(if concatSlash && es[0] == [SLASH] then a + es[0] else Append(a, es[0]), es[1..], concatSlash)
  }

  lemma {:induction false} FoldAppend(a: string, es: seq<string>, fs: seq<string>, concatSlash: bool)
    ensures Fold(a, es + fs, concatSlash) == Fold(Fold(a, es, concatSlash), fs, concatSlash)
    decreases |es|
  {
    if es == [] {
      assert es + fs == fs;
    } else {
      assert (es + fs)[1..] == es[1..] + fs;
      FoldAppend(if concatSlash && es[0] == [SLASH] then a + es[0] else Append(a, es[0]), es[1..], fs, concatSlash);
    }
  }

  function AllPieces(ns: seq<string>): seq<string> {
    if ns == [] then [] else AllPieces(ns[..|ns| - 1]) + Pieces(ns[|ns| - 1])
  }

  lemma PieceIs(n: string)
    requires IsName(n)
    ensures AllNames(Pieces(n)) && (Pieces(n) == [n] <==> !IsDrive(n)) && (|Pieces(n)| == 1 <==> !IsDrive(n))
    ensures EndsInColon(Pieces(n)[|Pieces(n)| - 1]) == EndsInColon(n)
  {
    assert IsDrive(n) ==> n == n[..2] + n[2..];
  }

  lemma {:induction false} PiecesAreNames(ns: seq<string>)
    requires AllNames(ns)
    ensures AllNames(AllPieces(ns)) && |AllPieces(ns)| >= |ns|
    ensures ns != [] ==> EndsInColon(AllPieces(ns)[|AllPieces(ns)| - 1]) == EndsInColon(ns[|ns| - 1])
  {
    if ns != [] {
      PiecesAreNames(ns[..|ns| - 1]);
      PieceIs(ns[|ns| - 1]);
    }
  }

  predicate NoDrives(ns: seq<string>) {
    forall i :: 0 <= i < |ns| ==> !IsDrive(ns[i])
  }

  lemma {:induction false} PiecesAreSameIff(ns: seq<string>)
    requires AllNames(ns)
    ensures NoDrives(ns) ==> AllPieces(ns) == ns
    ensures |AllPieces(ns)| == |ns| ==> NoDrives(ns)
  {
    if ns != [] {
      var k := |ns| - 1;
      PiecesAreSameIff(ns[..k]);
      PiecesAreNames(ns[..k]);
      PieceIs(ns[k]);
      assert ns == ns[..k] + [ns[k]];
    }
  }

  /** The first `k` names, each as it is appended. */
  function Shortened(v: Path, k: nat): View
    requires k <= |v.names|
  {
    View(v.root, v.dir, AllPieces(v.names[..k]), false)
  }

  lemma ShortenedIsPath(v: Path, k: nat)
    requires k <= |v.names|
    ensures WellFormed(Shortened(v, k))
  {
    PiecesAreNames(v.names[..k]);
  }

  lemma AppendNextName(v: Path, k: nat)
    requires Hosted(v) && k < |v.names|
    ensures Append(Render(Shortened(v, k)), v.names[k]) == Render(Shortened(v, k + 1))
  {
    assert v.names[..k + 1][..k] == v.names[..k];
    ShortenedIsPath(v, k);
    AppendName(Shortened(v, k), v.names[k]);
  }

  lemma {:induction false} FoldNames(v: Path, k: nat, concatSlash: bool)
    requires Hosted(v) && k <= |v.names|
    ensures Fold(Head(v), v.names[..k], concatSlash) == Render(Shortened(v, k))
  {
    if k > 0 {
      FoldNames(v, k - 1, concatSlash);
      NameIsNoSlash(v.names[k - 1]);
      FoldSnoc(Head(v), v.names, k, concatSlash);
      AppendNextName(v, k - 1);
    }
  }

  lemma FoldSnoc(a: string, ns: seq<string>, k: nat, concatSlash: bool)
    requires 0 < k <= |ns| && ns[k - 1] != [SLASH]
    ensures Fold(a, ns[..k], concatSlash) == Append(Fold(a, ns[..k - 1], concatSlash), ns[k - 1])
  {
    assert ns[..k] == ns[..k - 1] + [ns[k - 1]];
    FoldAppend(a, ns[..k - 1], [ns[k - 1]], concatSlash);
  }

  lemma NameIsNoSlash(n: string)
    requires IsName(n)
    ensures n != [SLASH]
  {
    assert SLASH in [SLASH];
  }

  lemma FoldHead(v: Path, concatSlash: bool)
    requires Hosted(v)
    ensures Fold(Fold("", if v.root == "" then [] else [v.root], concatSlash),
                 if v.dir then [[SLASH]] else [], concatSlash) == Head(v)
  {
    if v.root != "" {
      AppendRootToEmpty(v.root);
    }
    if v.dir {
      AppendDir(v.root);
    }
  }

  /** What appending the elements of a view builds: drives split, and no separator behind a
      colon. */
  function Rebuilt(v: View): View {
    var ns := AllPieces(v.names);
    View(v.root, v.dir, ns, v.slash && ns != [] && !EndsInColon(ns[|ns| - 1]))
  }

  lemma RebuiltIsPath(v: Path)
    ensures WellFormed(Rebuilt(v))
  {
    PiecesAreNames(v.names);
  }

  lemma FoldEnd(v: Path, concatSlash: bool)
    requires Hosted(v)
    ensures Fold(Render(Shortened(v, |v.names|)), if v.slash then [""] else [], concatSlash) == Render(Rebuilt(v))
  {
    assert v.names[..|v.names|] == v.names;
    ShortenedIsPath(v, |v.names|);
    PiecesAreNames(v.names);
    if v.slash {
      AppendNothing(Shortened(v, |v.names|));
    }
  }

  lemma FoldElements(v: Path, concatSlash: bool)
    requires Hosted(v)
    ensures Fold("", Elements(v), concatSlash) == Render(Rebuilt(v))
  {
    var roots := if v.root == "" then [] else [v.root];
    var dirs := if v.dir then [[SLASH]] else [];
    var end := if v.slash then [""] else [];
    FoldAppend("", roots, Unrooted(v), concatSlash);
    FoldAppend(Fold("", roots, concatSlash), dirs, NamesAndEnd(v.names, v.slash), concatSlash);
    FoldHead(v, concatSlash);
    FoldAppend(Head(v), v.names, end, concatSlash);
    assert v.names[..|v.names|] == v.names;
    FoldNames(v, |v.names|, concatSlash);
    FoldEnd(v, concatSlash);
  }

  /** No name looks like a drive, and no trailing separator follows a colon. */
  predicate Rebuilds(v: View) {
    && NoDrives(v.names)
    && (v.slash && v.names != [] ==> !EndsInColon(v.names[|v.names| - 1]))
  }

  lemma RebuildsIff(v: Path)
    ensures Rebuilt(v) == v <==> Rebuilds(v)
    ensures Rebuilt(Split(v)) == v <==> Rebuilds(v)
  {
    PiecesAreNames(v.names);
    PiecesAreSameIff(v.names);
    if HasDrive(v) {
      SplitIsPath(v);
      PiecesAreNames(Split(v).names);
      assert |Split(v).names| > |v.names|;
    }
  }

  predicate IsHosted(p: string) {
    Collapsed(p) && Hosted(Parse(p))
  }

  /** Folding `/=` over a path's elements rebuilds the path, if and only if none of its names
      looks like a drive and it does not end in a colon and a separator. */
  lemma ElementsRebuildPathIff(p: string)
    requires IsHosted(p)
    ensures Fold("", ElementsFrom(p, 0), false) == p <==> Rebuilds(Parse(p))
  {
    var v := Parse(p);
    RenderParse(p);
    IterationSplitsDrive(v);
    SplitIsPath(v);
    FoldElements(Split(v), false);
    RebuiltIsPath(Split(v));
    RebuildsIff(v);
    if Fold("", ElementsFrom(p, 0), false) == p {
      RenderInjective(Rebuilt(Split(v)), v);
    }
  }

  // ---------- parent_path and filename ----------

  function ParentPath(p: string): string {
    if RelativePath(p) == "" then p
    else if p == "" || Decrement(p, |p|) == 0 then ""
    else Fold("", ElementsBetween(p, 0, Decrement(p, |p|)), true)
  }

  /** Without the last element. */
  function ParentView(v: View): View
    requires v.names != []
  {
    if v.slash then v.(slash := false) else v.(names := v.names[..|v.names| - 1])
  }

  lemma ElementsOfParent(v: Path)
    requires v.names != []
    ensures Elements(v) != [] && Elements(ParentView(v)) == Elements(v)[..|Elements(v)| - 1]
    ensures WellFormed(ParentView(v))
  {
  }

  lemma ParentOfSplit(v: Path)
    requires v.names != [] && !(HasDrive(v) && |Elements(v)| == 1)
    ensures WellFormed(ParentView(v)) && WellFormed(Split(ParentView(v)))
    ensures Elements(Split(ParentView(v))) == Elements(Split(v))[..|Elements(Split(v))| - 1]
  {
    ElementsOfParent(v);
    SplitIsPath(ParentView(v));
    if HasDrive(v) {
      assert HasDrive(ParentView(v));
      assert Split(ParentView(v)) == ParentView(Split(v));
      SplitIsPath(v);
      ElementsOfParent(Split(v));
    }
  }

  lemma ParentOfMany(v: Path)
    requires Hosted(v) && v.names != [] && !(HasDrive(v) && |Elements(v)| == 1)
    ensures var p := Render(v);
            Fold("", ElementsBetween(p, 0, Decrement(p, |p|)), true) == Render(Rebuilt(Split(ParentView(v))))
  {
    ParentOfSplit(v);
    AllButLast(v);
    FoldElements(Split(ParentView(v)), true);
  }

  lemma ParentOfOne(v: Path)
    requires v.names != [] && |Elements(v)| == 1
    ensures Decrement(Render(v), |Render(v)|) == 0 && Render(Rebuilt(Split(ParentView(v)))) == ""
  {
    assert v.root == "" && !v.dir && |v.names| == 1 && !v.slash;
    NameStepBack(v, 0);
    assert ParentView(v) == EMPTY;
  }

  lemma ParentIsNotEmpty(v: Path)
    requires v.names != [] && |Elements(v)| > 1
    ensures Render(v) != "" && Decrement(Render(v), |Render(v)|) != 0
  {
    AllButLast(v);
    EmptyHasNoElements(v);
  }

  /** The parent path is built from all elements but the last. */
  lemma ParentPathIs(v: Path)
    requires Hosted(v)
    ensures ParentPath(Render(v)) == Render(if v.names == [] then v else Rebuilt(Split(ParentView(v))))
  {
    RelativePathIs(v);
    if v.names != [] {
      if |Elements(v)| == 1 {
        ParentOfOne(v);
      } else {
        ParentIsNotEmpty(v);
        ParentOfMany(v);
      }
    }
  }

  lemma SlashOnRebuilt(v: Path)
    requires v.slash
    ensures AppendView(Rebuilt(v.(slash := false)), EMPTY) == Rebuilt(v)
  {
    PiecesAreNames(v.names);
  }

  lemma NameOnRebuilt(v: Path)
    requires v.names != [] && !v.slash
    ensures WellFormed(Rebuilt(ParentView(v)))
    ensures var u := Rebuilt(ParentView(v));
            View(u.root, u.dir, u.names + Pieces(v.names[|v.names| - 1]), false) == Rebuilt(v)
  {
    ElementsOfParent(v);
    RebuiltIsPath(ParentView(v));
  }

  lemma AppendToParent(v: Path)
    requires Hosted(v) && v.names != []
    ensures WellFormed(Rebuilt(ParentView(v)))
    ensures Append(Render(Rebuilt(ParentView(v))), if v.slash then "" else v.names[|v.names| - 1]) == Render(Rebuilt(v))
  {
    ElementsOfParent(v);
    RebuiltIsPath(ParentView(v));
    if v.slash {
      SlashOnRebuilt(v);
      AppendNothing(Rebuilt(ParentView(v)));
    } else {
      NameOnRebuilt(v);
      AppendName(Rebuilt(ParentView(v)), v.names[|v.names| - 1]);
    }
  }

  lemma SplitParent(v: Path)
    requires v.names != [] && !(HasDrive(v) && |Elements(v)| == 1)
    ensures WellFormed(Split(v)) && Split(v).names != [] && Split(v).slash == v.slash && Split(v).root == v.root
    ensures Split(ParentView(v)) == ParentView(Split(v))
    ensures FileOf(v) == if v.slash then "" else Split(v).names[|Split(v).names| - 1]
  {
    SplitIsPath(v);
  }

  /** Parent path and file name make up what the elements of the path build. */
  lemma AppendLast(v: Path)
    requires Hosted(v) && v.names != [] && !(HasDrive(v) && |Elements(v)| == 1)
    ensures Append(ParentPath(Render(v)), Filename(Render(v))) == Render(Rebuilt(Split(v)))
  {
    ParentPathIs(v);
    FilenameIs(v);
    AppendToParentOf(v);
  }

  lemma AppendToParentOf(v: Path)
    requires Hosted(v) && v.names != [] && !(HasDrive(v) && |Elements(v)| == 1)
    ensures Append(Render(Rebuilt(Split(ParentView(v)))), FileOf(v)) == Render(Rebuilt(Split(v)))
  {
    SplitParent(v);
    AppendToParent(Split(v));
  }

  /** Whenever there is a relative part, parent path and file name make up the path, if and
      only if its elements do. */
  lemma ParentAndFilenameIff(p: string)
    requires IsHosted(p) && RelativePath(p) != ""
    ensures Append(ParentPath(p), Filename(p)) == p <==> Rebuilds(Parse(p))
  {
    var v := Parse(p);
    RenderParse(p);
    RelativePathIs(v);
    RebuildsIff(v);
    if HasDrive(v) && |Elements(v)| == 1 {
      DriveAlone(v);
    } else {
      AppendLast(v);
      SplitIsPath(v);
      RebuiltIsPath(Split(v));
      if Append(ParentPath(p), Filename(p)) == p {
        RenderInjective(Rebuilt(Split(v)), v);
      }
    }
  }

  lemma DriveAlone(v: Path)
    requires HasDrive(v) && |Elements(v)| == 1
    ensures Append(ParentPath(Render(v)), Filename(Render(v))) != Render(v)
  {
    ParentPathIs(v);
    FilenameIs(v);
    ParentOfOne(v);
    FirstNameText(v);
    AppendsShort(v.names[0][..2]);
  }

  lemma AppendsShort(n: string)
    requires IsName(n) && |n| == 2
    ensures Append("", n) == n
  {
    NameAsPath(n);
    AppendToNothing(n);
  }

  // ---------- which names an append lists ----------

  lemma AppendViewIsPath(v: Path, w: Path)
    ensures WellFormed(AppendView(v, w))
  {
    SplitIsPath(w);
    if w.root == "" && !w.dir && w.names != [] {
      AppendNamesIsPath(v, Split(w).names, w.slash);
    }
  }

  lemma AppendNamesIsPath(v: Path, ns: seq<string>, slash: bool)
    requires ns != [] && AllNames(ns)
    ensures WellFormed(AppendNamesView(v, ns, slash))
  {
    if IsRootOnly(v) && v.root != "" {
      assert (v.root + ns[0])[2..] == v.root[2..] + ns[0];
    }
  }

  /** The right-hand side replaces the left-hand side. */
  predicate Replaces(v: View, w: View) {
    (w.dir && !(IsRootOnly(v) && w == View("", true, [], false))) || (w.root != "" && w.root != v.root)
  }

  /** When the names of both are listed: where nothing is replaced, there must be no bare root
      name in front of the new names and no drive among them. */
  predicate ListsNames(v: View, w: View) {
    if Replaces(v, w) then v.names == []
    else w.names != [] ==> (v.root == "" || v.dir) && !HasDrive(w)
  }

  lemma AppendViewListsNames(v: Path, w: Path)
    ensures AppendView(v, w).names == v.names + w.names <==> ListsNames(v, w)
  {
    if !Replaces(v, w) && w.names != [] {
      assert w.root == "" && !w.dir;
      var ns := Split(w).names;
      if HasDrive(w) {
        assert |ns| == |w.names| + 1 && ns[1] == w.names[0][2..];
      }
    } else if Replaces(v, w) {
      if w.names == v.names + w.names {
        assert |v.names| == 0;
      }
    }
  }

  /** On texts: `operator/=` lists the names of both paths behind one another, if and only if
      it should and neither a bare root name nor a drive is in the way. */
  lemma AppendListsNamesIff(p: string, q: string)
    requires IsHosted(p) && IsHosted(q)
    ensures Parse(Append(p, q)).names == Parse(p).names + Parse(q).names <==> ListsNames(Parse(p), Parse(q))
  {
    var v, w := Parse(p), Parse(q);
    AppendsHosted(p, q);
    RenderParse(p);
    RenderParse(q);
    AppendViewIsPath(v, w);
    ParseRender(AppendView(v, w));
    AppendViewListsNames(v, w);
  }

  /** Appending strings is appending structured paths. */
  lemma AppendsHosted(p: string, q: string)
    ensures IsHosted(p) && IsHosted(q) ==> Append(p, q) == Render(AppendView(Parse(p), Parse(q)))
  {
    if IsHosted(p) && IsHosted(q) {
      RenderParse(p);
      RenderParse(q);
      AppendIsAppendView(Parse(p), Parse(q));
    }
  }

  // ---------- what an append gives, on texts ----------

  /** The text of relative names, with a drive in front torn off. */
  lemma SplitText(w: Path)
    requires w.root == "" && !w.dir && w.names != []
    ensures var q := Render(w);
            TailOf(Split(w).names, w.slash) ==
            if |q| > 2 && q[1] == ':' && q[2] != '/' then q[..2] + ['/'] + q[2..] else q
  {
    DriveShows(w);
    FirstNameText(w);
    TailCons(w.names, w.slash);
    assert Render(w) == TailOf(w.names, w.slash);
    if HasDrive(w) {
      var n, more := w.names[0], More(w.names[1..], w.slash);
      var c, x, r := n[..2], n[2..], w.names[1..];
      TailCons([c, x] + r, w.slash);
      TailCons([x] + r, w.slash);
      assert ([c, x] + r)[1..] == [x] + r && ([x] + r)[1..] == r;
      TornText(c, x, more);
      assert n == c + x;
    }
  }

  lemma TornText(c: string, x: string, more: string)
    requires |c| == 2
    ensures (c + x + more)[..2] == c && (c + x + more)[2..] == x + more
    ensures c + ([SLASH] + (x + more)) == c + [SLASH] + (x + more)
  {
  }

  lemma AppendedNames(v: Path, w: Path)
    requires w.root == "" && !w.dir && w.names != []
    ensures var p, q := Render(v), Render(w);
            Render(AppendView(v, w)) ==
            (if v.names != [] && !v.slash then p + ['/'] else p) +
            (if |q| > 2 && q[1] == ':' && q[2] != '/' then q[..2] + ['/'] + q[2..] else q)
  {
    SplitText(w);
    TextIs(v);
    ViewAppendsNames(v, Split(w).names, w.slash);
  }

  /** On texts: an absolute right-hand side, or one with another root name, replaces the left;
      only "/" behind a bare root name or nothing does not. Otherwise the left-hand side stays
      in front, and the right-hand side comes behind it, with a separator between them exactly
      behind a name, and one more behind a drive. */
  lemma AppendTexts(p: string, q: string)
    requires IsHosted(p) && IsHosted(q)
    ensures var v, w := Parse(p), Parse(q);
            var behind := if v.names != [] && !v.slash then p + ['/'] else p;
            Append(p, q) ==
            if (w.dir && !(p == v.root && q == ['/'])) || (w.root != "" && w.root != v.root) then q
            else if q == "" then if p == "" || p[|p| - 1] == '/' || p[|p| - 1] == ':' then p else p + ['/']
            else if q == ['/'] then p + ['/']
            else if w.root != "" then behind
            else behind + (if |q| > 2 && q[1] == ':' && q[2] != '/' then q[..2] + ['/'] + q[2..] else q)
  {
    var v, w := Parse(p), Parse(q);
    AppendsHosted(p, q);
    RenderParse(p);
    RenderParse(q);
    TextIs(v);
    TextIs(w);
    if w.root == "" && !w.dir && w.names != [] {
      AppendedNames(v, w);
    } else {
      AppendedHead(v, w);
    }
  }

  /** The same without names on the right, or with a root. */
  lemma AppendedHead(v: Path, w: Path)
    requires w.root != "" || w.dir || w.names == []
    ensures var p, q := Render(v), Render(w);
            Render(AppendView(v, w)) ==
            if (w.dir && !(p == v.root && q == ['/'])) || (w.root != "" && w.root != v.root) then q
            else if q == "" then if p == "" || p[|p| - 1] == '/' || p[|p| - 1] == ':' then p else p + ['/']
            else if q == ['/'] then p + ['/']
            else if v.names != [] && !v.slash then p + ['/'] else p
  {
    TextIs(v);
    TextIs(w);
    if !v.slash && v.names != [] {
      RenderOpen(v.(slash := true));
    }
  }

  /** The parts `r` of `p` and `q` appended, from their parts `v` and `w`. */
  predicate AreAppended(p: string, v: View, q: string, w: View, r: View) {
    if (w.dir && !(p == v.root && q == ['/'])) || (w.root != "" && w.root != v.root) then r == w
    else if w.names == [] then
      && r.root == v.root && r.names == v.names
      && (r.dir <==> v.dir || q == ['/'] || (q == "" && v.root != "" && v.root[|v.root| - 1] != ':'))
      && (r.slash <==> v.slash || (v.names != [] && (q != "" || (p != "" && p[|p| - 1] != ':'))))
    else if v.root == "" || v.dir then r.root == v.root && r.dir == v.dir && r.slash == w.slash
    else
      var ns := Split(w).names;
      ns != [] && r.root == v.root + ns[0] && (r.dir <==> |ns| > 1 || w.slash) && (r.slash <==> |ns| > 1 && w.slash)
  }

  lemma AppendViewParts(v: Path, w: Path)
    ensures AreAppended(Render(v), v, Render(w), w, AppendView(v, w))
  {
    TextIs(v);
    TextIs(w);
  }

  /** The parts of the result that `AppendListsNamesIff` leaves open. */
  lemma AppendParts(p: string, q: string)
    requires IsHosted(p) && IsHosted(q)
    ensures AreAppended(p, Parse(p), q, Parse(q), Parse(Append(p, q)))
  {
    var v, w := Parse(p), Parse(q);
    AppendsHosted(p, q);
    RenderParse(p);
    RenderParse(q);
    AppendViewParts(v, w);
    AppendViewIsPath(v, w);
    ParseRender(AppendView(v, w));
  }

  /** No separator comes behind a bare root name. */
  lemma HostSwallowsName(r: string, n: string)
    requires IsRoot(r) && r != "" && Hosted(View(r, false, [], false)) && IsName(n) && !IsDrive(n)
    ensures Append(r, n) == r + n
  {
    RootAsPath(r);
    NameAsPath(n);
    AppendIsAppendView(ViewOf(r), ViewOf(n));
    assert AppendView(ViewOf(r), ViewOf(n)) == View(r + n, false, [], false);
  }

  lemma HostSwallowsX(r: string, n: string)
    requires r == "//host" && n == "x"
    ensures Append(r, n) == "//hostx"
  {
    assert r[2..] == "host" && r[3..] == "ost";
    assert IsRoot(r) && Hosted(View(r, false, [], false));
    HostSwallowsName(r, n);
  }

  lemma TwoNamesText(c: string, x: string)
    ensures Render(View("", false, [c, x], false)) == c + [SLASH] + x
  {
    assert [c, x][1..] == [x] && Terminated([x]) == x + [SLASH];
    var t := Terminated([c, x]);
    assert t == c + [SLASH] + x + [SLASH];
    assert t[..|t| - 1] == c + [SLASH] + x;
  }

  /** A drive is torn off: "c:x" appended to nothing is "c:/x". */
  lemma DriveIsTornOff(n: string)
    requires IsName(n) && IsDrive(n)
    ensures Append("", n) == n[..2] + [SLASH] + n[2..]
  {
    AppendToNothing(n);
    TwoNamesText(n[..2], n[2..]);
  }

  lemma AppendToNothing(n: string)
    requires IsName(n)
    ensures Append("", n) == Render(View("", false, Pieces(n), false))
  {
    AppendName(EMPTY, n);
    assert [] + Pieces(n) == Pieces(n);
  }

  /** Without the last name, but with the separator in front of it. */
  function Init(v: View): View
    requires v.names != []
  {
    View(v.root, v.dir, v.names[..|v.names| - 1], |v.names| > 1)
  }

  lemma TailInit(ns: seq<string>)
    requires ns != []
    ensures TailOf(ns, false) == Terminated(ns[..|ns| - 1]) + ns[|ns| - 1]
    ensures TailOf(ns, true) == TailOf(ns, false) + [SLASH]
    ensures Terminated(ns[..|ns| - 1]) == TailOf(ns[..|ns| - 1], |ns| > 1)
  {
    TerminatedLast(ns);
    var a, n := Terminated(ns[..|ns| - 1]), ns[|ns| - 1];
    assert (a + n + [SLASH])[..|a + n|] == a + n;
    assert |ns| == 1 ==> ns[..|ns| - 1] == [];
  }

  lemma RenderInit(v: Path)
    requires v.names != []
    ensures Render(v.(slash := false)) == Render(Init(v)) + v.names[|v.names| - 1]
  {
    TailInit(v.names);
    assert Tail(Init(v)) == Terminated(v.names[..|v.names| - 1]);
    assert Tail(v.(slash := false)) == TailOf(v.names, false);
    Joined(Head(v), Terminated(v.names[..|v.names| - 1]), v.names[|v.names| - 1]);
  }

  lemma RenderOpen(v: Path)
    requires v.slash
    ensures Render(v) == Render(v.(slash := false)) + [SLASH]
  {
    TailInit(v.names);
    assert Tail(v) == TailOf(v.names, true);
  }

  lemma CutLastName(a: string, n: string)
    ensures (a + n)[..|a + n| - |n|] == a
  {
  }

  lemma RemoveFilenameIs(v: Path)
    requires Hosted(v) && v.names != [] && !v.slash && !(HasDrive(v) && |v.names| == 1)
    ensures RemoveFilename(Render(v)) == Render(Init(v))
  {
    RenderInit(v);
    FilenameIs(v);
    CutLastName(Render(Init(v)), v.names[|v.names| - 1]);
  }

  /** Removing the file name of a text leaves the names in front and their separators. */
  lemma RemovesLastName(p: string)
    requires IsHosted(p)
    ensures EndsInName(Parse(p)) ==> RemoveFilename(p) == Render(Init(Parse(p)))
    ensures Parse(p).names == [] || Parse(p).slash ==> RemoveFilename(p) == p
  {
    RenderParse(p);
    FilenameIs(Parse(p));
    if EndsInName(Parse(p)) {
      RemoveFilenameIs(Parse(p));
    }
  }

  predicate EndsInName(v: View) {
    v.names != [] && !v.slash && !(HasDrive(v) && |v.names| == 1)
  }

  // ---------- the code ----------

  class PathObject {
    var path: string

    constructor (source: string)
      ensures path == Collapse(source)
    {
      path := Collapse(source);
    }

    /** `operator/=`. */
    method AppendPath(p: string)
      modifies this
      ensures path == Append(old(path), p)
      ensures IsHosted(old(path)) && IsHosted(p) ==> path == Render(AppendView(Parse(old(path)), Parse(p)))
    {
      AppendsHosted(path, p);
      if p == "" {
        if path != "" && path[|path| - 1] != SLASH && path[|path| - 1] != ':' {
          path := path + [SLASH];
        }
        return;
      }
      if (IsAbsolute(p) && (path != RootName(path) || p != [SLASH])) || (RootName(p) != "" && RootName(p) != RootName(path)) {
        path := p;
        return;
      }
      if RootDirectory(p) != "" {
        path := RootName(path);
      } else if (RootDirectory(path) == "" && IsAbsolute(path)) || Filename(path) != "" {
        path := path + [SLASH];
      }
      var iter := new Iterator(p, 0);
      var first := true;
      if RootName(p) != "" {
        iter.Next();
      }
      while iter.iter != |p|
        invariant fresh(iter) && iter.Valid() && iter.path == p
        invariant AppendElements(path, ElementsFrom(p, iter.iter), first) == Append(old(path), p)
        decreases |p| - iter.iter
      {
        if !first && !EndsInSlash(path) {
          path := path + [SLASH];
        }
        first := false;
        path := path + iter.current;
        iter.Next();
      }
    }

    /** `remove_filename`. */
    method RemoveName()
      modifies this
      ensures path == RemoveFilename(old(path))
      ensures IsHosted(old(path)) && EndsInName(Parse(old(path))) ==> path == Render(Init(Parse(old(path))))
      ensures IsHosted(old(path)) && (Parse(old(path)).names == [] || Parse(old(path)).slash) ==> path == old(path)
    {
      if IsHosted(path) {
        RemovesLastName(path);
      }
      var name := Filename(path);
      if name != "" && |name| <= |path| {
        path := path[..|path| - |name|];
      }
    }
  }

  /** `parent_path`: the loop over all elements but the last. */
  method ParentPathOf(p: string) returns (parent: string)
    ensures parent == ParentPath(p)
  {
    if RelativePath(p) == "" {
      return p;
    }
    var last := Decrement(p, |p|);
    if p == "" || last == 0 {
      return "";
    }
    var pp := new PathObject("");
    var iter := new Iterator(p, 0);
    while iter.iter != last && iter.iter != |p|
      invariant iter.Valid() && iter.path == p
      invariant Fold(pp.path, ElementsBetween(p, iter.iter, last), true) == ParentPath(p)
      decreases |p| - iter.iter
    {
      if iter.current == [SLASH] {
        pp.path := pp.path + iter.current;
      } else {
        pp.AppendPath(iter.current);
      }
      iter.Next();
    }
    parent := pp.path;
  }
}
