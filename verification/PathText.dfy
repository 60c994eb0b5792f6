/**
  Path text: searching for separators, collapsing runs of slashes
  (`path::postprocess_path_with_format`, POSIX branch) and the characters
  for which the path theorems are stated.
  */
module PathText {
  const SLASH: char := '/'

  /** `std::isprint` in the C locale. */
  predicate IsPrint(c: char) {
    ' ' <= c <= '~'
  }

  /** `std::find`: the first slash at or after `i`, or the end. */
  function Find(s: string, i: nat): (j: nat)
    requires i <= |s|
    ensures i <= j <= |s| && SLASH !in s[i..j] && (j < |s| ==> s[j] == SLASH)
    decreases |s| - i
  {
    if i == |s| || s[i] == SLASH then i
    else
      assert s[i..Find(s, i + 1)] == [s[i]] + s[i + 1..Find(s, i + 1)];
      Find(s, i + 1)
  }

  /** `std::find` backwards over `s[..i]`: one past the last slash, or the start. */
  function FindBack(s: string, i: nat): (j: nat)
    requires i <= |s|
    ensures j <= i && SLASH !in s[j..i] && (0 < j ==> s[j - 1] == SLASH)
  {
    if i == 0 || s[i - 1] == SLASH then i
    else
      assert s[FindBack(s, i - 1)..i] == s[FindBack(s, i - 1)..i - 1] + [s[i - 1]];
      FindBack(s, i - 1)
  }

  lemma CutAt(s: string, j: nat)
    requires j < |s|
    ensures s == s[..j] + [s[j]] + s[j + 1..]
  {
  }

  /** A slash-free stretch that ends at a slash or at the end is what `Find` skips. */
  lemma {:induction false} FindIs(s: string, i: nat, j: nat)
    requires i <= j <= |s| && SLASH !in s[i..j] && (j < |s| ==> s[j] == SLASH)
    ensures Find(s, i) == j
    decreases j - i
  {
    if i < j {
      assert s[i..j] == [s[i]] + s[i + 1..j];
      FindIs(s, i + 1, j);
    }
  }

  lemma {:induction false} FindBackIs(s: string, i: nat, j: nat)
    requires j <= i <= |s| && SLASH !in s[j..i] && (0 < j ==> s[j - 1] == SLASH)
    ensures FindBack(s, i) == j
  {
    if j < i {
      assert s[j..i] == s[j..i - 1] + [s[i - 1]];
      FindBackIs(s, i - 1, j);
    }
  }

  // ---------- collapsing slashes ----------

  /** `std::unique` with the predicate "both are slashes". */
  function Squeeze(s: string): string {
    if |s| <= 1 then s
    else if s[0] == SLASH && s[1] == SLASH then Squeeze(s[1..])
    else [s[0]] + Squeeze(s[1..])
  }

  predicate DoubleAt(s: string, i: nat)
    requires i + 1 < |s|
  {
    s[i] == SLASH && s[i + 1] == SLASH
  }

  predicate NoDoubleSlash(s: string) {
    forall i :: 0 <= i < |s| - 1 ==> !DoubleAt(s, i)
  }

  /** A leading "//" followed by something else names a host and is kept. */
  predicate HasHostSlashes(p: string) {
    |p| > 2 && p[0] == SLASH && p[1] == SLASH && p[2] != SLASH
  }

  function Collapse(p: string): string {
    if HasHostSlashes(p) then p[..2] + Squeeze(p[2..]) else Squeeze(p)
  }

  /** No redundant slash: the form every constructor leaves a path in. */
  predicate Collapsed(p: string) {
    if HasHostSlashes(p) then NoDoubleSlash(p[2..]) else NoDoubleSlash(p)
  }

  lemma {:induction false} SqueezeKeepsEnds(s: string)
    ensures s != "" ==> Squeeze(s) != "" && Squeeze(s)[0] == s[0]
    ensures NoDoubleSlash(Squeeze(s))
  {
    if |s| > 1 {
      SqueezeKeepsEnds(s[1..]);
      if !(s[0] == SLASH && s[1] == SLASH) {
        NoDoubleSlashConcat([s[0]], Squeeze(s[1..]));
      }
    }
  }

  lemma NoDoubleSlashCons(s: string)
    requires |s| > 1
    ensures NoDoubleSlash(s) <==> !(s[0] == SLASH && s[1] == SLASH) && NoDoubleSlash(s[1..])
  {
    var t := s[1..];
    if NoDoubleSlash(s) {
      assert !DoubleAt(s, 0);
      forall i | 0 <= i < |t| - 1
        ensures !DoubleAt(t, i)
      {
        assert !DoubleAt(s, i + 1);
      }
    }
    if !(s[0] == SLASH && s[1] == SLASH) && NoDoubleSlash(t) {
      forall i | 0 <= i < |s| - 1
        ensures !DoubleAt(s, i)
      {
        assert i > 0 ==> !DoubleAt(t, i - 1);
      }
    }
  }

  lemma NoDoubleSlashSuffix(s: string, k: nat)
    requires NoDoubleSlash(s) && k <= |s|
    ensures NoDoubleSlash(s[k..])
  {
    var t := s[k..];
    forall i | 0 <= i < |t| - 1
      ensures !DoubleAt(t, i)
    {
      assert !DoubleAt(s, k + i);
    }
  }

  lemma NoDoubleSlashPrefix(s: string, k: nat)
    requires NoDoubleSlash(s) && k <= |s|
    ensures NoDoubleSlash(s[..k])
  {
    forall i | 0 <= i < k - 1
      ensures !DoubleAt(s[..k], i)
    {
      assert !DoubleAt(s, i);
    }
  }

  lemma NoDoubleSlashConcat(a: string, b: string)
    requires NoDoubleSlash(a) && NoDoubleSlash(b)
    requires a != "" && b != "" ==> !(a[|a| - 1] == SLASH && b[0] == SLASH)
    ensures NoDoubleSlash(a + b)
  {
    var t := a + b;
    forall i | 0 <= i < |t| - 1
      ensures !DoubleAt(t, i)
    {
      if i < |a| - 1 {
        assert !DoubleAt(a, i);
      } else if i >= |a| {
        assert !DoubleAt(b, i - |a|);
      }
    }
  }

  lemma {:induction false} SqueezeFixed(s: string)
    ensures |Squeeze(s)| <= |s|
    ensures Squeeze(s) == s <==> NoDoubleSlash(s)
  {
    if |s| > 1 {
      NoDoubleSlashCons(s);
      SqueezeFixed(s[1..]);
      if !(s[0] == SLASH && s[1] == SLASH) {
        assert s == [s[0]] + s[1..];
        assert Squeeze(s)[1..] == Squeeze(s[1..]);
      }
    }
  }

  /** Collapsing always reaches the collapsed form, and leaves exactly that form alone. */
  lemma CollapseIsCanonical(p: string)
    ensures Collapsed(Collapse(p))
    ensures Collapse(p) == p <==> Collapsed(p)
    ensures Collapse(Collapse(p)) == Collapse(p)
  {
    CollapseGivesCollapsed(p);
    CollapseFixed(p);
    CollapseFixed(Collapse(p));
  }

  lemma CollapseGivesCollapsed(p: string)
    ensures Collapsed(Collapse(p))
  {
    if HasHostSlashes(p) {
      SqueezeKeepsEnds(p[2..]);
      assert Collapse(p)[2..] == Squeeze(p[2..]);
    } else {
      SqueezeKeepsEnds(p);
      assert |Squeeze(p)| > 2 ==> !DoubleAt(Squeeze(p), 0);
    }
  }

  lemma CollapseFixed(p: string)
    ensures Collapse(p) == p <==> Collapsed(p)
  {
    if HasHostSlashes(p) {
      SqueezeFixed(p[2..]);
      assert p == p[..2] + p[2..];
      assert Collapse(p)[2..] == Squeeze(p[2..]);
    } else {
      SqueezeFixed(p);
    }
  }

  /** The non-empty names between slashes, behind the beginning `word` of the first one. */
  function NamesBetween(s: string, word: string): seq<string> {
    if s == "" then if word == "" then [] else [word]
    else if s[0] == SLASH then (if word == "" then [] else [word]) + NamesBetween(s[1..], "")
    else NamesBetween(s[1..], word + [s[0]])
  }

  lemma {:induction false} SqueezeKeepsNames(s: string, word: string)
    ensures NamesBetween(Squeeze(s), word) == NamesBetween(s, word)
    ensures s != "" ==> Squeeze(s) != "" && Squeeze(s)[|Squeeze(s)| - 1] == s[|s| - 1]
    decreases |s|
  {
    if |s| > 1 {
      if s[0] == SLASH && s[1] == SLASH {
        SqueezeKeepsNames(s[1..], word);
      } else {
        SqueezeKeepsNames(s[1..], if s[0] == SLASH then "" else word + [s[0]]);
        assert Squeeze(s)[1..] == Squeeze(s[1..]);
      }
    }
  }

  /** Collapsing keeps the names between the slashes, and whether there are slashes at the
      ends and a host in front. */
  lemma CollapseKeepsNames(p: string)
    ensures NamesBetween(Collapse(p), "") == NamesBetween(p, "")
    ensures HasHostSlashes(Collapse(p)) <==> HasHostSlashes(p)
    ensures p != "" ==> Collapse(p) != "" && Collapse(p)[0] == p[0] && Collapse(p)[|Collapse(p)| - 1] == p[|p| - 1]
  {
    if HasHostSlashes(p) {
      var c := Collapse(p);
      SqueezeKeepsNames(p[2..], "");
      SqueezeKeepsEnds(p[2..]);
      assert c[1..][1..] == Squeeze(p[2..]) && p[1..][1..] == p[2..];
    } else {
      SqueezeKeepsNames(p, "");
      SqueezeKeepsEnds(p);
      assert |Squeeze(p)| > 2 ==> !DoubleAt(Squeeze(p), 0);
    }
  }

  // ---------- the code ----------

  /** The in-place loop of `std::unique`: every character is compared with the last one kept. */
  method SqueezeInPlace(s: string) returns (kept: string)
    ensures kept == Squeeze(s)
  {
    if s == "" {
      return "";
    }
    kept := [s[0]];
    var i := 1;
    while i < |s|
      invariant 1 <= i <= |s| && kept != "" && kept[|kept| - 1] == s[i - 1]
      invariant kept[..|kept| - 1] + Squeeze(s[i - 1..]) == Squeeze(s)
    {
      SqueezeNext(kept, s, i);
      if !(kept[|kept| - 1] == s[i] && kept[|kept| - 1] == SLASH) {
        kept := kept + [s[i]];
      }
      i := i + 1;
    }
    assert s[|s| - 1..] == [s[|s| - 1]];
  }

  lemma SqueezeNext(kept: string, s: string, i: nat)
    requires 1 <= i < |s| && kept != "" && kept[|kept| - 1] == s[i - 1]
    ensures kept[..|kept| - 1] + Squeeze(s[i - 1..]) ==
            if s[i - 1] == SLASH && s[i] == SLASH then kept[..|kept| - 1] + Squeeze(s[i..])
            else (kept + [s[i]])[..|kept|] + Squeeze(s[i..])
  {
    assert s[i - 1..][1..] == s[i..];
    if !(s[i - 1] == SLASH && s[i] == SLASH) {
      assert Squeeze(s[i - 1..]) == [s[i - 1]] + Squeeze(s[i..]);
      assert (kept + [s[i]])[..|kept|] == kept[..|kept| - 1] + [s[i - 1]];
    }
  }

  method PostprocessPath(p: string) returns (r: string)
    ensures r == Collapse(p) && Collapsed(r) && (r == p <==> Collapsed(p))
  {
    CollapseIsCanonical(p);
    if |p| > 2 && p[0] == SLASH && p[1] == SLASH && p[2] != SLASH {
      var tail := SqueezeInPlace(p[2..]);
      r := p[..2] + tail;
    } else {
      r := SqueezeInPlace(p);
    }
  }
}
