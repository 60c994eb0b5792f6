/**
  `path::lexically_normal` (section 30.10.8.4.11 of ISO C++17), against the normal form of
  section 30.10.8.1 and a stack interpreter for names.

  The code goes wrong on some relative paths that climb above their start. The theorems
  say on exactly which ones.
  */
module PathNormal {
  import opened PathText
  import opened PathView
  import opened PathIterator
  import opened PathCompose

  const DOT := "."
  const UP := ".."

  // ---------- the loop, as coded ----------

  function LastElement(p: string): string {
    Current(p, Decrement(p, |p|))
  }

  function DropLast(dest: string): string {
    RemoveFilename(if EndsInSlash(dest) then dest[..|dest| - 1] else dest)
  }

  function NormalLoop(root: string, es: seq<string>, dest: string, lastUp: bool): string
    decreases |es|
  {
    if es == [] then dest
    else if es[0] == DOT then NormalLoop(root, es[1..], Append(dest, ""), lastUp)
    else if es[0] == UP && dest != "" && dest == root then NormalLoop(root, es[1..], dest, lastUp)
    else if es[0] == UP && dest != "" && LastElement(dest) != UP then NormalLoop(root, es[1..], DropLast(dest), lastUp)
    else NormalLoop(root, es[1..], if es[0] == "" && lastUp then dest else Append(dest, es[0]), es[0] == UP)
  }

  function LexicallyNormal(p: string): string {
    var dest := NormalLoop(RootPath(p), ElementsFrom(p, 0), "", false);
    if dest == "" then DOT else dest
  }

  // ---------- names on a stack ----------

  /** Levels climbed above the start, names below them, and whether the text built so far
      ends in a separator. */
  datatype Stack = Stack(ups: nat, names: seq<string>, slash: bool)

  const START := Stack(0, [], false)

  /** One element. The code differs from the standard in one case: a ".." that arrives
      when only ".." are left and the text ends in a separator removes one of them. */
  function Step(abs: bool, st: Stack, e: string, coded: bool): Stack {
    if e == "" then if st.names != [] then st.(slash := true) else st
    else if e == DOT then st.(slash := st.ups > 0 || st.names != [])
    else if e == UP then
      if st.names != [] then
        Stack(st.ups, st.names[..|st.names| - 1], st.ups > 0 || |st.names| > 1)
      else if abs then st
      else if coded && st.ups > 0 && st.slash then Stack(st.ups - 1, [], st.ups > 1)
      else Stack(st.ups + 1, [], false)
    else Stack(st.ups, st.names + [e], false)
  }

  function Run(abs: bool, st: Stack, es: seq<string>, coded: bool): Stack
    decreases |es|
  {
    if es == [] then st else Run(abs, Step(abs, st, es[0], coded), es[1..], coded)
  }

  /** The text ends in "../": the next ".." would be mistaken for a name to cancel. */
  predicate Trips(abs: bool, st: Stack) {
    !abs && st.ups > 0 && st.names == [] && st.slash
  }

  /** Walking the elements by the standard, no ".." comes right after the path has returned
      to the level it climbed to through a "." or a cancelled name. */
  predicate ClimbsCleanly(abs: bool, st: Stack, es: seq<string>)
    decreases |es|
  {
    es == [] || ((es[0] == UP ==> !Trips(abs, st)) && ClimbsCleanly(abs, Step(abs, st, es[0], false), es[1..]))
  }

  /** The level a stack stands at, counted from the start. */
  function Level(st: Stack): int {
    |st.names| - st.ups
  }

  lemma {:induction false} CleanRunsAgree(abs: bool, st: Stack, es: seq<string>)
    requires ClimbsCleanly(abs, st, es)
    ensures Run(abs, st, es, true) == Run(abs, st, es, false)
    decreases |es|
  {
    if es != [] {
      assert Step(abs, st, es[0], true) == Step(abs, st, es[0], false);
      CleanRunsAgree(abs, Step(abs, st, es[0], false), es[1..]);
    }
  }

  /** The code never ends up deeper below than the standard does. */
  lemma {:induction false} LevelsDrift(c: Stack, r: Stack, es: seq<string>)
    ensures Level(Run(false, c, es, true)) - Level(Run(false, r, es, false)) >= Level(c) - Level(r)
    decreases |es|
  {
    if es != [] {
      LevelsDrift(Step(false, c, es[0], true), Step(false, r, es[0], false), es[1..]);
    }
  }

  /** A single trip is never made good again. */
  lemma {:induction false} TripShowsInLevel(st: Stack, es: seq<string>)
    requires !ClimbsCleanly(false, st, es)
    ensures Level(Run(false, st, es, true)) > Level(Run(false, st, es, false))
    decreases |es|
  {
    var c, r := Step(false, st, es[0], true), Step(false, st, es[0], false);
    if es[0] == UP && Trips(false, st) {
      LevelsDrift(c, r, es[1..]);
    } else {
      assert c == r;
      TripShowsInLevel(r, es[1..]);
    }
  }

  /** How often the code removes a ".." in this way. */
  function TripCount(st: Stack, es: seq<string>): nat
    decreases |es|
  {
    if es == [] then 0
    else (if es[0] == UP && Trips(false, st) then 1 else 0) + TripCount(Step(false, st, es[0], true), es[1..])
  }

  /** What that does, exactly: the names come out as they should, and each time the result
      climbs two levels less. */
  lemma {:induction false} TripsLoseLevels(c: Stack, r: Stack, es: seq<string>)
    requires c.names == r.names
    ensures var c', r' := Run(false, c, es, true), Run(false, r, es, false);
            c'.names == r'.names && c'.ups - c.ups == r'.ups - r.ups - 2 * TripCount(c, es)
    decreases |es|
  {
    if es != [] {
      TripsLoseLevels(Step(false, c, es[0], true), Step(false, r, es[0], false), es[1..]);
    }
  }

  lemma {:induction false} AbsoluteIsClean(st: Stack, es: seq<string>)
    ensures ClimbsCleanly(true, st, es)
    decreases |es|
  {
    if es != [] {
      AbsoluteIsClean(Step(true, st, es[0], false), es[1..]);
    }
  }

  /** The code and the standard reach the same stack exactly on cleanly climbing paths. */
  lemma RunsAgreeIffClean(abs: bool, es: seq<string>)
    ensures ClimbsCleanly(abs, START, es) <==>
            && Run(abs, START, es, true).ups == Run(abs, START, es, false).ups
            && Run(abs, START, es, true).names == Run(abs, START, es, false).names
  {
    if ClimbsCleanly(abs, START, es) {
      CleanRunsAgree(abs, START, es);
    } else {
      if abs {
        AbsoluteIsClean(START, es);
      }
      TripShowsInLevel(START, es);
    }
  }

  /** A path that never climbs above its start climbs cleanly. */
  lemma {:induction false} NeverClimbingIsClean(abs: bool, st: Stack, es: seq<string>)
    requires Run(abs, st, es, false).ups == 0
    ensures st.ups == 0 && ClimbsCleanly(abs, st, es)
    decreases |es|
  {
    if es != [] {
      NeverClimbingIsClean(abs, Step(abs, st, es[0], false), es[1..]);
    }
  }

  lemma {:induction false} CleanSnoc(abs: bool, st: Stack, es: seq<string>, e: string)
    ensures ClimbsCleanly(abs, st, es + [e]) <==>
            ClimbsCleanly(abs, st, es) && (e == UP ==> !Trips(abs, Run(abs, st, es, false)))
    decreases |es|
  {
    if es == [] {
      assert es + [e] == [e];
    } else {
      assert (es + [e])[1..] == es[1..] + [e];
      CleanSnoc(abs, Step(abs, st, es[0], false), es[1..], e);
    }
  }

  /** Where a stack stands, without the question how its text ends. */
  predicate SamePlace(s: Stack, t: Stack) {
    s.ups == t.ups && s.names == t.names
  }

  lemma {:induction false} PlaceIgnoresSlash(abs: bool, s: Stack, t: Stack, es: seq<string>)
    requires SamePlace(s, t)
    ensures SamePlace(Run(abs, s, es, false), Run(abs, t, es, false))
    decreases |es|
  {
    if es != [] {
      PlaceIgnoresSlash(abs, Step(abs, s, es[0], false), Step(abs, t, es[0], false), es[1..]);
    }
  }

  // ---------- the text built so far is the text of a stack ----------

  function Ups(k: nat): (s: seq<string>)
    ensures |s| == k && forall i :: 0 <= i < k ==> s[i] == UP
  {
    seq(k, _ => UP)
  }

  /** Names a stack can hold: neither "." nor "..". */
  predicate IsProperName(n: string) {
    IsName(n) && IsPlain(n) && n != DOT && n != UP
  }

  predicate Proper(abs: bool, st: Stack) {
    && (forall i :: 0 <= i < |st.names| ==> IsProperName(st.names[i]))
    && (st.slash ==> st.ups > 0 || st.names != [])
    && (abs ==> st.ups == 0)
  }

  /** Roots a stack can stand on: with names to come, a root name needs a root directory. */
  predicate IsBase(root: string, dir: bool) {
    IsRoot(root) && Tame(View(root, dir, [], false)) && (root != "" ==> dir)
  }

  function Dest(root: string, dir: bool, st: Stack): (v: View) {
    View(root, dir, Ups(st.ups) + st.names, st.slash)
  }

  lemma DestIsPath(root: string, dir: bool, st: Stack)
    requires IsBase(root, dir) && Proper(dir, st)
    ensures WellFormed(Dest(root, dir, st)) && Tame(Dest(root, dir, st))
  {
    var ns := Dest(root, dir, st).names;
    forall i | 0 <= i < |ns|
      ensures IsName(ns[i]) && IsPlain(ns[i])
    {
      if i >= st.ups {
        assert IsProperName(st.names[i - st.ups]);
      }
    }
  }

  lemma StepIsProper(abs: bool, st: Stack, e: string, coded: bool)
    requires Proper(abs, st) && (e == "" || (IsName(e) && IsPlain(e)))
    ensures Proper(abs, Step(abs, st, e, coded))
  {
  }

  // ---------- dropping the last name ----------

  lemma LastElementIs(v: Path)
    requires Tame(v) && v.names != []
    ensures LastElement(Render(v)) == if v.slash then "" else v.names[|v.names| - 1]
  {
    RelativePathIs(v);
    FilenameIs(v);
  }

  lemma DropLastIs(v: Path)
    requires Tame(v) && v.names != []
    ensures DropLast(Render(v)) == Render(Init(v))
  {
    TextIs(v);
    RemoveFilenameIs(v.(slash := false));
    if v.slash {
      RenderOpen(v);
      assert Render(v)[..|Render(v)| - 1] == Render(v.(slash := false));
    }
  }

  // ---------- each branch of the loop acts on the stack ----------

  function BaseText(root: string, dir: bool): string {
    root + (if dir then [SLASH] else "")
  }

  /** `lastDotDot`, as far as it matters: it is set only while no name follows the last "..",
      and it is clear at a climbed level only if the text ends in a separator. */
  predicate FlagFits(st: Stack, lastUp: bool) {
    && (lastUp ==> st.names == [])
    && (!lastUp && st.names == [] && st.ups > 0 ==> st.slash)
  }

  lemma DestAppendsName(root: string, dir: bool, st: Stack, e: string)
    requires IsBase(root, dir) && Proper(dir, st) && IsName(e) && IsPlain(e)
    ensures Append(Render(Dest(root, dir, st)), e) == Render(View(root, dir, Dest(root, dir, st).names + [e], false))
  {
    DestIsPath(root, dir, st);
    AppendName(Dest(root, dir, st), e);
  }

  lemma NameBranch(root: string, dir: bool, st: Stack, e: string)
    requires IsBase(root, dir) && Proper(dir, st) && IsProperName(e)
    ensures Append(Render(Dest(root, dir, st)), e) == Render(Dest(root, dir, Step(dir, st, e, true)))
  {
    DestAppendsName(root, dir, st, e);
    assert Ups(st.ups) + st.names + [e] == Ups(st.ups) + (st.names + [e]);
  }

  lemma ClimbBranch(root: string, dir: bool, st: Stack)
    requires IsBase(root, dir) && Proper(dir, st) && !dir && st.names == [] && !(st.ups > 0 && st.slash)
    ensures Append(Render(Dest(root, dir, st)), UP) == Render(Dest(root, dir, Step(dir, st, UP, true)))
  {
    DestAppendsName(root, dir, st, UP);
    MoreUps(st.ups);
    assert Ups(st.ups) + st.names == Ups(st.ups);
  }

  lemma MoreUps(k: nat)
    ensures Ups(k) + [UP] == Ups(k + 1) + []
  {
  }

  lemma SeparatorBranch(root: string, dir: bool, st: Stack)
    requires IsBase(root, dir) && Proper(dir, st)
    ensures Append(Render(Dest(root, dir, st)), "") == Render(Dest(root, dir, Step(dir, st, DOT, true)))
  {
    DestIsPath(root, dir, st);
    AppendNothing(Dest(root, dir, st));
  }

  /** At the end of the elements, the flag decides as the stack does. */
  lemma EndBranch(root: string, dir: bool, st: Stack, lastUp: bool)
    requires IsBase(root, dir) && Proper(dir, st) && FlagFits(st, lastUp)
    ensures (if lastUp then Render(Dest(root, dir, st)) else Append(Render(Dest(root, dir, st)), ""))
            == Render(Dest(root, dir, Step(dir, st, "", true)))
  {
    SeparatorBranch(root, dir, st);
  }

  lemma InitOfNames(k: nat, ns: seq<string>)
    requires k > 0 || ns != []
    ensures (Ups(k) + ns)[..|Ups(k) + ns| - 1] == if ns != [] then Ups(k) + ns[..|ns| - 1] else Ups(k - 1) + []
  {
    if ns != [] {
      assert (Ups(k) + ns)[..|Ups(k) + ns| - 1] == Ups(k) + ns[..|ns| - 1];
    }
  }

  lemma InitOfDest(root: string, dir: bool, st: Stack)
    requires st.ups > 0 || st.names != []
    requires WellFormed(Dest(root, dir, st)) && (dir ==> st.ups == 0)
    requires st.names != [] || st.slash
    ensures Init(Dest(root, dir, st)) == Dest(root, dir, Step(dir, st, UP, true))
  {
    InitOfNames(st.ups, st.names);
  }

  /** Cancelling: the last name, or by mistake a "..", goes. */
  lemma CancelBranch(root: string, dir: bool, st: Stack)
    requires IsBase(root, dir) && Proper(dir, st) && (st.names != [] || (st.ups > 0 && st.slash))
    ensures DropLast(Render(Dest(root, dir, st))) == Render(Dest(root, dir, Step(dir, st, UP, true)))
  {
    DestIsPath(root, dir, st);
    DropLastIs(Dest(root, dir, st));
    InitOfDest(root, dir, st);
  }

  /** What the code asks before it takes a branch on "..". */
  lemma UpQuestions(root: string, dir: bool, st: Stack)
    requires IsBase(root, dir) && Proper(dir, st)
    ensures var dest := Render(Dest(root, dir, st));
            && (dest == BaseText(root, dir) <==> st.ups == 0 && st.names == [])
            && (dest == "" <==> !dir && st.ups == 0 && st.names == [])
            && (st.ups > 0 || st.names != [] ==>
                  (LastElement(dest) == UP <==> st.names == [] && !st.slash))
  {
    var v := Dest(root, dir, st);
    DestIsPath(root, dir, st);
    TextIs(v);
    TailIs(v);
    assert Render(v) == BaseText(root, dir) + Tail(v);
    if v.names != [] {
      LastElementIs(v);
      if st.names != [] {
        assert v.names[|v.names| - 1] == st.names[|st.names| - 1];
        assert IsProperName(st.names[|st.names| - 1]);
      }
    }
  }

  predicate IsElement(e: string) {
    e == "" || (IsName(e) && IsPlain(e))
  }

  /** The flag after an element that is not the last one. */
  function NextFlag(dir: bool, st: Stack, e: string, lastUp: bool): bool {
    if e == DOT then lastUp
    else if e == UP then
      if st.names != [] || dir || (st.ups > 0 && st.slash) then lastUp else true
    else false
  }

  lemma FlagStaysFit(dir: bool, st: Stack, e: string, lastUp: bool)
    requires Proper(dir, st) && FlagFits(st, lastUp) && e != ""
    ensures FlagFits(Step(dir, st, e, true), NextFlag(dir, st, e, lastUp))
  {
  }

  lemma UpStep(root: string, dir: bool, st: Stack, es: seq<string>, lastUp: bool)
    requires IsBase(root, dir) && Proper(dir, st) && es != [] && es[0] == UP
    ensures NormalLoop(BaseText(root, dir), es, Render(Dest(root, dir, st)), lastUp) ==
            NormalLoop(BaseText(root, dir), es[1..], Render(Dest(root, dir, Step(dir, st, UP, true))),
                       NextFlag(dir, st, UP, lastUp))
  {
    UpQuestions(root, dir, st);
    if st.names != [] || (st.ups > 0 && st.slash) {
      CancelBranch(root, dir, st);
    } else if !dir {
      ClimbBranch(root, dir, st);
    }
  }

  lemma LoopStep(root: string, dir: bool, st: Stack, es: seq<string>, lastUp: bool)
    requires IsBase(root, dir) && Proper(dir, st) && FlagFits(st, lastUp) && es != [] && IsElement(es[0])
    ensures NormalLoop(BaseText(root, dir), es, Render(Dest(root, dir, st)), lastUp) ==
            NormalLoop(BaseText(root, dir), es[1..], Render(Dest(root, dir, Step(dir, st, es[0], true))),
                       NextFlag(dir, st, es[0], lastUp))
  {
    if es[0] == "" {
      EndBranch(root, dir, st, lastUp);
    } else if es[0] == DOT {
      SeparatorBranch(root, dir, st);
    } else if es[0] == UP {
      UpStep(root, dir, st, es, lastUp);
    } else {
      NameBranch(root, dir, st, es[0]);
    }
  }

  /** Only the last element can be empty. */
  predicate AreElements(es: seq<string>) {
    forall i :: 0 <= i < |es| ==> IsElement(es[i]) && (es[i] == "" ==> i == |es| - 1)
  }

  lemma {:induction false} LoopRunsStack(root: string, dir: bool, st: Stack, es: seq<string>, lastUp: bool)
    requires IsBase(root, dir) && Proper(dir, st) && (es != [] ==> FlagFits(st, lastUp)) && AreElements(es)
    ensures NormalLoop(BaseText(root, dir), es, Render(Dest(root, dir, st)), lastUp) ==
            Render(Dest(root, dir, Run(dir, st, es, true)))
    decreases |es|
  {
    if es != [] {
      LoopStep(root, dir, st, es, lastUp);
      StepIsProper(dir, st, es[0], true);
      if |es| > 1 {
        FlagStaysFit(dir, st, es[0], lastUp);
      }
      LoopRunsStack(root, dir, Step(dir, st, es[0], true), es[1..], NextFlag(dir, st, es[0], lastUp));
    }
  }

  // ---------- the whole function on views ----------

  /** An empty result is written as ".". */
  function Finish(v: View): View {
    if v == EMPTY then View("", false, [DOT], false) else v
  }

  function Tokens(v: View): seq<string> {
    NamesAndEnd(v.names, v.slash)
  }

  function CodedNormal(v: View): View {
    Finish(Dest(v.root, v.dir, Run(v.dir, START, Tokens(v), true)))
  }

  /** The normal form of section 30.10.8.1: nothing for the empty path; names resolved; a
      separator at the end if the path ended in a separator, "." or ".." and a name is left;
      "." if nothing is left. */
  function StandardNormal(v: View): View {
    var st := Run(v.dir, START, Tokens(v), false);
    if v == EMPTY then EMPTY
    else Finish(View(v.root, v.dir, Ups(st.ups) + st.names, st.names != [] && EndsOpen(Tokens(v))))
  }

  predicate EndsOpen(es: seq<string>) {
    es != [] && (es[|es| - 1] == "" || es[|es| - 1] == DOT || es[|es| - 1] == UP)
  }

  /** What a path means: how far it climbs above its start and the names it then goes down. */
  function Resolve(v: View): (nat, seq<string>) {
    var st := Run(v.dir, START, Tokens(v), false);
    (st.ups, st.names)
  }

  lemma TokensAreElements(v: Path)
    requires Tame(v)
    ensures AreElements(Tokens(v))
  {
  }

  lemma {:induction false} RunIsProper(abs: bool, st: Stack, es: seq<string>, coded: bool)
    requires Proper(abs, st) && AreElements(es)
    ensures Proper(abs, Run(abs, st, es, coded))
    decreases |es|
  {
    if es != [] {
      StepIsProper(abs, st, es[0], coded);
      RunIsProper(abs, Step(abs, st, es[0], coded), es[1..], coded);
    }
  }

  lemma BaseOf(v: Path)
    requires Tame(v) && (v.root != "" ==> v.dir)
    ensures IsBase(v.root, v.dir) && Render(Dest(v.root, v.dir, START)) == Head(v) == BaseText(v.root, v.dir)
  {
  }

  /** The root name and the root directory are copied. */
  lemma HeadStep(v: Path)
    requires Tame(v)
    ensures NormalLoop(Head(v), Elements(v), "", false) == NormalLoop(Head(v), Tokens(v), Head(v), false)
  {
    if v.root != "" {
      AppendRootToEmpty(v.root);
      assert Elements(v)[1..] == Unrooted(v);
      assert v.root[0] == SLASH;
    } else {
      assert Elements(v) == Unrooted(v);
    }
    DirectoryStep(v);
  }

  lemma DirectoryStep(v: Path)
    requires Tame(v)
    ensures NormalLoop(Head(v), Unrooted(v), v.root, false) == NormalLoop(Head(v), Tokens(v), Head(v), false)
  {
    if v.dir {
      AppendDir(v.root);
      assert Unrooted(v)[1..] == Tokens(v);
    } else {
      assert Unrooted(v) == Tokens(v);
    }
  }

  lemma NormalLoopIs(v: Path)
    requires Tame(v)
    ensures NormalLoop(Head(v), Elements(v), "", false) == Render(Dest(v.root, v.dir, Run(v.dir, START, Tokens(v), true)))
  {
    HeadStep(v);
    if v.root != "" && !v.dir {
      assert Tokens(v) == [];
    } else {
      BaseOf(v);
      TokensAreElements(v);
      LoopRunsStack(v.root, v.dir, START, Tokens(v), false);
    }
  }

  lemma CodedIsPath(v: Path)
    requires Tame(v)
    ensures WellFormed(Dest(v.root, v.dir, Run(v.dir, START, Tokens(v), true)))
    ensures WellFormed(CodedNormal(v)) && Tame(CodedNormal(v))
  {
    CodedDestIsPath(v);
    FinishIsPath(Dest(v.root, v.dir, Run(v.dir, START, Tokens(v), true)));
  }

  lemma CodedDestIsPath(v: Path)
    requires Tame(v)
    ensures var u := Dest(v.root, v.dir, Run(v.dir, START, Tokens(v), true));
            WellFormed(u) && Tame(u)
  {
    TokensAreElements(v);
    RunIsProper(v.dir, START, Tokens(v), true);
    if v.root != "" && !v.dir {
      assert Tokens(v) == [];
      assert Ups(0) + [] == [];
    } else {
      BaseOf(v);
      DestIsPath(v.root, v.dir, Run(v.dir, START, Tokens(v), true));
    }
  }

  lemma FinishIsPath(u: Path)
    requires Tame(u)
    ensures WellFormed(Finish(u)) && Tame(Finish(u))
  {
  }

  /** `lexically_normal` on views, for all tame paths. */
  lemma LexicallyNormalIs(v: Path)
    requires Tame(v)
    ensures WellFormed(CodedNormal(v)) && Tame(CodedNormal(v))
    ensures LexicallyNormal(Render(v)) == Render(CodedNormal(v))
  {
    RootDirectoryIs(v);
    TameIsTaken(v);
    NormalLoopIs(v);
    CodedIsPath(v);
    FinishedText(Dest(v.root, v.dir, Run(v.dir, START, Tokens(v), true)));
  }

  lemma FinishedText(v: Path)
    ensures Render(Finish(v)) == if Render(v) == "" then DOT else Render(v)
  {
    TextIs(v);
    var dot := DotText();
  }

  // ---------- the standard's result as a stack ----------

  lemma {:induction false} RunSnoc(abs: bool, st: Stack, es: seq<string>, e: string, coded: bool)
    ensures Run(abs, st, es + [e], coded) == Step(abs, Run(abs, st, es, coded), e, coded)
    decreases |es|
  {
    if es == [] {
      assert es + [e] == [e];
    } else {
      assert (es + [e])[1..] == es[1..] + [e];
      RunSnoc(abs, Step(abs, st, es[0], coded), es[1..], e, coded);
    }
  }

  /** With names left, the last element alone says whether the text ends in a separator. */
  lemma SlashIsEndsOpen(abs: bool, es: seq<string>)
    requires Run(abs, START, es, false).names != []
    ensures Run(abs, START, es, false).slash <==> EndsOpen(es)
  {
    if es != [] {
      var k := |es| - 1;
      assert es == es[..k] + [es[k]];
      RunSnoc(abs, START, es[..k], es[k], false);
    }
  }

  lemma StandardIs(v: View)
    requires v != EMPTY
    ensures var st := Run(v.dir, START, Tokens(v), false);
            StandardNormal(v) == Finish(Dest(v.root, v.dir, st.(slash := st.names != [] && st.slash)))
  {
    var st := Run(v.dir, START, Tokens(v), false);
    if st.names != [] {
      SlashIsEndsOpen(v.dir, Tokens(v));
    }
  }

  lemma StandardIsPath(v: Path)
    requires Tame(v)
    ensures WellFormed(StandardNormal(v)) && Tame(StandardNormal(v))
  {
    if v != EMPTY {
      StandardIs(v);
    }
    TokensAreElements(v);
    RunIsProper(v.dir, START, Tokens(v), false);
    var st := Run(v.dir, START, Tokens(v), false);
    if v.root != "" && !v.dir {
      assert Tokens(v) == [];
    } else {
      BaseOf(v);
      DestIsPath(v.root, v.dir, st.(slash := st.names != [] && st.slash));
    }
  }

  // ---------- running over a normal form ----------

  lemma {:induction false} RunAppend(abs: bool, st: Stack, es: seq<string>, fs: seq<string>, coded: bool)
    ensures Run(abs, st, es + fs, coded) == Run(abs, Run(abs, st, es, coded), fs, coded)
    decreases |es|
  {
    if es == [] {
      assert es + fs == fs;
    } else {
      assert (es + fs)[1..] == es[1..] + fs;
      RunAppend(abs, Step(abs, st, es[0], coded), es[1..], fs, coded);
    }
  }

  lemma {:induction false} RunUps(k: nat, coded: bool)
    ensures Run(false, START, Ups(k), coded) == Stack(k, [], false)
  {
    if k > 0 {
      RunUps(k - 1, coded);
      assert Ups(k) == Ups(k - 1) + [UP];
      RunSnoc(false, START, Ups(k - 1), UP, coded);
    }
  }

  lemma {:induction false} RunNames(abs: bool, k: nat, ns: seq<string>, coded: bool)
    requires forall i :: 0 <= i < |ns| ==> IsProperName(ns[i])
    ensures Run(abs, Stack(k, [], false), ns, coded) == Stack(k, ns, false)
    decreases |ns|
  {
    if ns != [] {
      var m := |ns| - 1;
      RunNames(abs, k, ns[..m], coded);
      assert ns == ns[..m] + [ns[m]];
      RunSnoc(abs, Stack(k, [], false), ns[..m], ns[m], coded);
    }
  }

  lemma RunNormal(abs: bool, st: Stack, coded: bool)
    requires Proper(abs, st)
    ensures Run(abs, START, NamesAndEnd(Ups(st.ups) + st.names, st.slash), coded) ==
            st.(slash := st.names != [] && st.slash)
  {
    var ns := Ups(st.ups) + st.names;
    var end := if st.slash then [""] else [];
    RunAppend(abs, START, ns, end, coded);
    RunAppend(abs, START, Ups(st.ups), st.names, coded);
    if abs {
      assert Ups(st.ups) == [];
    } else {
      RunUps(st.ups, coded);
    }
    RunNames(abs, st.ups, st.names, coded);
  }

  /** A finished stack resolves to itself. */
  lemma ResolveFinished(root: string, dir: bool, st: Stack)
    requires Proper(dir, st)
    ensures Resolve(Finish(Dest(root, dir, st))) == (st.ups, st.names)
  {
    RunNormal(dir, st, false);
    assert Run(false, START, [DOT], false) == START;
  }

  // ---------- when the code meets the standard ----------

  lemma ResolveCoded(v: Path)
    requires Tame(v)
    ensures var c := Run(v.dir, START, Tokens(v), true);
            Resolve(CodedNormal(v)) == (c.ups, c.names)
  {
    TokensAreElements(v);
    RunIsProper(v.dir, START, Tokens(v), true);
    ResolveFinished(v.root, v.dir, Run(v.dir, START, Tokens(v), true));
  }

  lemma ResolveStandard(v: Path)
    requires Tame(v)
    ensures Resolve(StandardNormal(v)) == Resolve(v)
  {
    TokensAreElements(v);
    RunIsProper(v.dir, START, Tokens(v), false);
    if v == EMPTY {
      return;
    }
    var st := Run(v.dir, START, Tokens(v), false);
    StandardIs(v);
    ResolveFinished(v.root, v.dir, st.(slash := st.names != [] && st.slash));
  }

  /** The result means what the path meant exactly on cleanly climbing paths. */
  lemma NormalResolvesSameIff(v: Path)
    requires Tame(v)
    ensures Resolve(CodedNormal(v)) == Resolve(v) <==> ClimbsCleanly(v.dir, START, Tokens(v))
  {
    ResolveCoded(v);
    RunsAgreeIffClean(v.dir, Tokens(v));
  }

  lemma CodedIsStandardIff(v: Path)
    requires Tame(v)
    ensures CodedNormal(v) == StandardNormal(v) <==> v != EMPTY && ClimbsCleanly(v.dir, START, Tokens(v) + [UP])
  {
    if v == EMPTY {
      return;
    }
    var c, r := Run(v.dir, START, Tokens(v), true), Run(v.dir, START, Tokens(v), false);
    CleanSnoc(v.dir, START, Tokens(v), UP);
    StandardIs(v);
    NormalResolvesSameIff(v);
    ResolveStandard(v);
    TokensAreElements(v);
    RunIsProper(v.dir, START, Tokens(v), false);
    if ClimbsCleanly(v.dir, START, Tokens(v)) {
      CleanRunsAgree(v.dir, START, Tokens(v));
      SameButSlash(v.root, v.dir, r);
    }
  }

  /** On equal stacks the two results differ exactly in a separator behind "..". */
  lemma SameButSlash(root: string, dir: bool, st: Stack)
    requires Proper(dir, st)
    ensures Finish(Dest(root, dir, st)) == Finish(Dest(root, dir, st.(slash := st.names != [] && st.slash)))
            <==> !Trips(dir, st)
  {
  }

  /** On tame paths `lexically_normal` returns the standard's normal form if and only if the
      path is not empty and, with one more ".." behind it, climbs cleanly. */
  lemma NormalIsStandardIff(p: string)
    requires IsTame(p)
    ensures LexicallyNormal(p) == Render(StandardNormal(Parse(p))) <==>
            p != "" && ClimbsCleanly(Parse(p).dir, START, Tokens(Parse(p)) + [UP])
  {
    RenderParse(p);
    LexicallyNormalIs(Parse(p));
    StandardIsPath(Parse(p));
    CodedIsStandardIff(Parse(p));
    TextIs(Parse(p));
    if LexicallyNormal(p) == Render(StandardNormal(Parse(p))) {
      RenderInjective(CodedNormal(Parse(p)), StandardNormal(Parse(p)));
    }
  }

  /** For the empty path the standard's normal form is empty, but the code returns ".". */
  lemma EmptyBecomesDot(p: string)
    requires p == ""
    ensures Parse(p) == EMPTY && LexicallyNormal(p) == DOT && Render(StandardNormal(Parse(p))) == p
  {
    EmptyText();
    ParseRender(EMPTY);
    LexicallyNormalIs(EMPTY);
    CodedOfEmpty();
    var dot := DotText();
  }

  lemma EmptyText()
    ensures Render(EMPTY) == "" && Tame(EMPTY)
  {
  }

  lemma DotText() returns (u: Path)
    ensures u == View("", false, [DOT], false) && Tame(u) && Render(u) == DOT
  {
    u := View("", false, [DOT], false);
    assert Terminated([DOT]) == DOT + [SLASH];
  }

  lemma CodedOfEmpty()
    ensures CodedNormal(EMPTY) == View("", false, [DOT], false)
  {
    assert Tokens(EMPTY) == [];
    assert Ups(0) + [] == [];
  }

  /** Absolute paths, and relative paths that never climb above their start: the code
      returns the standard's normal form (for the empty path "." instead), normalising again
      changes nothing, the meaning is kept, and no "." or ".." is left over unless the result
      is ".". */
  lemma SettledPathIsNormalised(v: Path)
    requires Tame(v) && (v.dir || Resolve(v).0 == 0)
    ensures LexicallyNormal(Render(v)) == if v == EMPTY then DOT else Render(StandardNormal(v))
    ensures LexicallyNormal(LexicallyNormal(Render(v))) == LexicallyNormal(Render(v))
    ensures Resolve(StandardNormal(v)) == Resolve(v)
    ensures StandardNormal(v) == View("", false, [DOT], false) ||
            forall i :: 0 <= i < |StandardNormal(v).names| ==> IsProperName(StandardNormal(v).names[i])
  {
    SettledIsClean(v);
    CodedIsStandardIff(v);
    LexicallyNormalIs(v);
    ResolveStandard(v);
    SettledIsIdempotent(v);
    SettledHasNoDots(v);
    EmptyText();
    EmptyBecomesDot(Render(EMPTY));
  }

  lemma SettledIsIdempotent(v: Path)
    requires Tame(v) && (v.dir || Resolve(v).0 == 0)
    ensures LexicallyNormal(LexicallyNormal(Render(v))) == LexicallyNormal(Render(v))
  {
    SettledIsClean(v);
    CleanSnoc(v.dir, START, Tokens(v), UP);
    IdempotentIff(v);
  }

  lemma SettledIsClean(v: Path)
    requires v.dir || Resolve(v).0 == 0
    ensures ClimbsCleanly(v.dir, START, Tokens(v) + [UP])
  {
    if v.dir {
      AbsoluteIsClean(START, Tokens(v) + [UP]);
    } else {
      NeverClimbingIsClean(v.dir, START, Tokens(v));
      CleanSnoc(v.dir, START, Tokens(v), UP);
    }
  }

  lemma SettledHasNoDots(v: Path)
    requires Tame(v) && (v.dir || Resolve(v).0 == 0)
    ensures var u := StandardNormal(v);
            u == View("", false, [DOT], false) || forall i :: 0 <= i < |u.names| ==> IsProperName(u.names[i])
  {
    TokensAreElements(v);
    RunIsProper(v.dir, START, Tokens(v), false);
    assert Ups(0) == [];
  }

  // ---------- idempotence ----------

  lemma CodedOfFinished(root: string, dir: bool, st: Stack)
    requires Proper(dir, st)
    ensures CodedNormal(Finish(Dest(root, dir, st))) == Finish(Dest(root, dir, st.(slash := st.names != [] && st.slash)))
  {
    RunNormal(dir, st, true);
    assert Run(false, START, [DOT], true) == START;
  }

  /** A walk over the elements that only counts: levels climbed, names below them, and
      whether the last one came to a level it had left. */
  datatype Count = Count(ups: nat, depth: nat, open: bool)

  function CountStep(c: Count, e: string): Count {
    if e == "" then if c.depth > 0 then c.(open := true) else c
    else if e == DOT then c.(open := c.ups > 0 || c.depth > 0)
    else if e != UP then Count(c.ups, c.depth + 1, false)
    else if c.depth > 0 then Count(c.ups, c.depth - 1, c.ups > 0 || c.depth > 1)
    else if c.ups > 0 && c.open then Count(c.ups - 1, 0, c.ups > 1)
    else Count(c.ups + 1, 0, false)
  }

  function CountAll(c: Count, es: seq<string>): Count
    decreases |es|
  {
    if es == [] then c else CountAll(CountStep(c, es[0]), es[1..])
  }

  /** The elements end above the start, open: a relative path whose result ends in "../". */
  predicate EndsOpenAbove(abs: bool, es: seq<string>) {
    var c := CountAll(Count(0, 0, false), es);
    !abs && c.ups > 0 && c.depth == 0 && c.open
  }

  lemma {:induction false} CountFollowsRun(st: Stack, es: seq<string>)
    ensures var r := Run(false, st, es, true);
            CountAll(Count(st.ups, |st.names|, st.slash), es) == Count(r.ups, |r.names|, r.slash)
    decreases |es|
  {
    if es != [] {
      CountFollowsRun(Step(false, st, es[0], true), es[1..]);
    }
  }

  lemma TripsIsEndsOpenAbove(abs: bool, es: seq<string>)
    ensures EndsOpenAbove(abs, es) <==> Trips(abs, Run(abs, START, es, true))
  {
    if !abs {
      CountFollowsRun(START, es);
    }
  }

  /** Normalising again changes the result if and only if the elements end above the start,
      open. For a path that climbs cleanly that is: if one more ".." would not. */
  lemma IdempotentIff(v: Path)
    requires Tame(v)
    ensures LexicallyNormal(LexicallyNormal(Render(v))) == LexicallyNormal(Render(v)) <==>
            !EndsOpenAbove(v.dir, Tokens(v))
    ensures ClimbsCleanly(v.dir, START, Tokens(v)) ==>
              (EndsOpenAbove(v.dir, Tokens(v)) <==> !ClimbsCleanly(v.dir, START, Tokens(v) + [UP]))
  {
    var c := Run(v.dir, START, Tokens(v), true);
    TokensAreElements(v);
    RunIsProper(v.dir, START, Tokens(v), true);
    CodedOfFinished(v.root, v.dir, c);
    SameButSlash(v.root, v.dir, c);
    TripsIsEndsOpenAbove(v.dir, Tokens(v));
    TextIdempotent(v);
    if ClimbsCleanly(v.dir, START, Tokens(v)) {
      CleanRunsAgree(v.dir, START, Tokens(v));
      CleanSnoc(v.dir, START, Tokens(v), UP);
    }
  }

  lemma TextIdempotent(v: Path)
    requires Tame(v)
    ensures WellFormed(CodedNormal(v)) && Tame(CodedNormal(v))
    ensures LexicallyNormal(LexicallyNormal(Render(v))) == LexicallyNormal(Render(v)) <==>
            CodedNormal(CodedNormal(v)) == CodedNormal(v)
  {
    LexicallyNormalIs(v);
    LexicallyNormalIs(CodedNormal(v));
    if LexicallyNormal(LexicallyNormal(Render(v))) == LexicallyNormal(Render(v)) {
      RenderInjective(CodedNormal(CodedNormal(v)), CodedNormal(v));
    }
  }

  lemma ThreeNamesText(a: string, b: string, c: string)
    ensures Render(View("", false, [a, b, c], false)) == a + [SLASH] + b + [SLASH] + c
  {
    var ns := [a, b, c];
    assert ns[1..] == [b, c] && [b, c][1..] == [c] && Terminated([c]) == c + [SLASH];
    assert Terminated([b, c]) == b + [SLASH] + (c + [SLASH]);
    var t := Terminated(ns);
    assert t == a + [SLASH] + Terminated([b, c]);
    assert t == a + [SLASH] + b + [SLASH] + c + [SLASH];
    assert t[..|t| - 1] == a + [SLASH] + b + [SLASH] + c;
  }

  lemma CodedOfReturn(n: string, coded: bool)
    requires IsProperName(n)
    ensures Run(false, START, [UP, n, UP], coded) == Stack(1, [], true)
  {
    var es := [UP, n, UP];
    assert es[1..] == [n, UP] && es[1..][1..] == [UP];
    var s1 := Step(false, START, UP, coded);
    var s2 := Step(false, s1, n, coded);
    assert s1 == Stack(1, [], false) && s2 == Stack(1, [n], false);
    assert Run(false, s2, [UP], coded) == Step(false, s2, UP, coded) == Stack(1, [], true);
    assert Run(false, s1, [n, UP], coded) == Run(false, s2, [UP], coded);
  }

  lemma ReturnAsView(n: string)
    requires IsProperName(n)
    ensures CodedNormal(View("", false, [UP, n, UP], false)) == View("", false, [UP], true)
    ensures StandardNormal(View("", false, [UP, n, UP], false)) == View("", false, [UP], false)
  {
    assert Tokens(View("", false, [UP, n, UP], false)) == [UP, n, UP];
    CodedOfReturn(n, true);
    CodedOfReturn(n, false);
    assert Ups(1) + [] == [UP];
  }

  lemma LostAsView(n: string)
    requires IsProperName(n)
    ensures CodedNormal(View("", false, [UP, n, UP, UP], false)) == View("", false, [DOT], false)
    ensures StandardNormal(View("", false, [UP, n, UP, UP], false)) == View("", false, [UP, UP], false)
  {
    var es := [UP, n, UP];
    assert Tokens(View("", false, [UP, n, UP, UP], false)) == es + [UP];
    CodedOfReturn(n, true);
    CodedOfReturn(n, false);
    RunSnoc(false, START, es, UP, true);
    RunSnoc(false, START, es, UP, false);
    assert Ups(0) + [] == [] && Ups(2) + [] == [UP, UP];
  }

  /** On texts, for every name: "../x/.." becomes "../", where the standard has "..". */
  lemma ReturnStaysOpen(n: string)
    requires IsProperName(n)
    ensures LexicallyNormal(UP + [SLASH] + n + [SLASH] + UP) == UP + [SLASH]
    ensures StandardNormal(View("", false, [UP, n, UP], false)) == View("", false, [UP], false)
  {
    ReturnAsView(n);
    ThreeNamesText(UP, n, UP);
    LexicallyNormalIs(View("", false, [UP, n, UP], false));
    TerminatedOne(UP);
  }

  /** And "../x/../.." becomes ".", where the standard has "../..". */
  lemma ReturnIsLost(n: string)
    requires IsProperName(n)
    ensures LexicallyNormal(UP + [SLASH] + n + [SLASH] + UP + [SLASH] + UP) == DOT
    ensures StandardNormal(View("", false, [UP, n, UP, UP], false)) == View("", false, [UP, UP], false)
  {
    LostAsView(n);
    ReturnText(n);
    LexicallyNormalIs(View("", false, [UP, n, UP, UP], false));
    var dot := DotText();
  }

  lemma ReturnText(n: string)
    ensures Render(View("", false, [UP, n, UP, UP], false)) == UP + [SLASH] + n + [SLASH] + UP + [SLASH] + UP
  {
    var ns := [UP, n, UP, UP];
    assert ns[1..] == [n, UP, UP] && [n, UP, UP][1..] == [UP, UP] && [UP, UP][1..] == [UP];
    assert Terminated([UP]) == UP + [SLASH];
    assert Terminated([UP, UP]) == UP + [SLASH] + (UP + [SLASH]);
    assert Terminated([n, UP, UP]) == n + [SLASH] + (UP + [SLASH] + (UP + [SLASH]));
    var t := Terminated(ns);
    assert t == UP + [SLASH] + Terminated([n, UP, UP]);
    assert t == UP + [SLASH] + n + [SLASH] + UP + [SLASH] + UP + [SLASH];
    assert t[..|t| - 1] == UP + [SLASH] + n + [SLASH] + UP + [SLASH] + UP;
  }

  /** Why names that look like drives are left out: "c:x" becomes "c:/x". */
  lemma DriveIsNotNormal(p: string)
    requires IsName(p) && IsDrive(p) && !IsDrive(p[2..]) && p[2..] != DOT && p[2..] != UP
    ensures LexicallyNormal(p) == p[..2] + [SLASH] + p[2..]
  {
    var c, x := p[..2], p[2..];
    ElementsOfName(p);
    AppendsShort(c);
    AppendsBehind(c, x);
    TwoAppended(c, x);
  }

  lemma ElementsOfName(p: string)
    requires IsName(p) && IsDrive(p)
    ensures RootPath(p) == "" && ElementsFrom(p, 0) == [p[..2], p[2..]]
  {
    var v := View("", false, [p], false);
    NameAsPath(p);
    IterationSplitsDrive(v);
    RootDirectoryIs(v);
    assert Elements(Split(v)) == [p[..2], p[2..]];
  }

  lemma TwoAppended(c: string, x: string)
    requires IsName(c) && c != DOT && c != UP && IsName(x) && x != DOT && x != UP
    ensures NormalLoop("", [c, x], "", false) == Append(Append("", c), x)
  {
    assert [c, x][1..] == [x];
    assert NormalLoop("", [x], Append("", c), false) == NormalLoop("", [], Append(Append("", c), x), false);
  }

  lemma AppendsBehind(c: string, x: string)
    requires IsName(c) && IsName(x) && !IsDrive(x)
    ensures Append(c, x) == c + [SLASH] + x
  {
    NameAsPath(c);
    AppendName(View("", false, [c], false), x);
    assert [c] + Pieces(x) == [c, x];
    TwoNamesText(c, x);
  }

  // ---------- the code ----------

  method LexicallyNormalOf(p: string) returns (dest: PathObject)
    ensures fresh(dest) && dest.path == LexicallyNormal(p)
  {
    dest := new PathObject("");
    var lastDotDot := false;
    var root := RootPath(p);
    var iter := new Iterator(p, 0);
    while iter.iter != |p|
      invariant fresh(dest) && fresh(iter) && iter.Valid() && iter.path == p
      invariant NormalLoop(root, ElementsFrom(p, iter.iter), dest.path, lastDotDot) ==
                NormalLoop(root, ElementsFrom(p, 0), "", false)
      decreases |p| - iter.iter
    {
      var s := iter.current;
      iter.Next();
      if s == DOT {
        dest.AppendPath("");
        continue;
      } else if s == UP && dest.path != "" {
        if dest.path == root {
          continue;
        } else if LastElement(dest.path) != UP {
          if EndsInSlash(dest.path) {
            dest.path := dest.path[..|dest.path| - 1];
          }
          dest.RemoveName();
          continue;
        }
      }
      if !(s == "" && lastDotDot) {
        dest.AppendPath(s);
      }
      lastDotDot := s == UP;
    }
    if dest.path == "" {
      dest.path := DOT;
    }
  }
}
