/**
  The path inserter and extractor (section 30.10.8.6.1 of ISO C++17) on character streams
  that skip whitespace, as streams do by default.
  */
module PathStream {
  import opened PathText

  const QUOTE: char := '"'
  const ESCAPE: char := '\\'

  /** Blank, or one of the control characters from tab to carriage return. */
  predicate IsSpace(c: char) {
    c == ' ' || '\t' <= c <= '\r'
  }

  // ---------- writing ----------

  function Escaped(p: string): string {
    if p == "" then ""
    else (if p[0] == QUOTE || p[0] == ESCAPE then [ESCAPE, p[0]] else [p[0]]) + Escaped(p[1..])
  }

  function Printed(p: string): string {
    [QUOTE] + Escaped(p) + [QUOTE]
  }

  /** The number of quotes and backslashes. */
  function Specials(p: string): nat {
    multiset(p)['"'] + multiset(p)['\\']
  }

  lemma SpecialsCons(c: char, p: string)
    ensures Specials([c] + p) == Specials(p) + if c == '"' || c == '\\' then 1 else 0
  {
  }

  predicate IsSpecial(c: char) {
    c == '"' || c == '\\'
  }

  /** Character `i` of `p` stands in `t` behind as many backslashes as there are specials up
      to it, one of them right in front of a special. */
  predicate Stands(t: string, p: string, i: nat)
    requires i < |p|
  {
    var at := i + Specials(p[..i + 1]);
    at < |t| && t[at] == p[i] && (IsSpecial(p[i]) ==> at > 0 && t[at - 1] == '\\')
  }

  /** `t` is `p` with one backslash in front of exactly the quotes and backslashes. */
  ghost predicate IsEscapeOf(t: string, p: string) {
    |t| == |p| + Specials(p) && forall i :: 0 <= i < |p| ==> Stands(t, p, i)
  }

  lemma StandsBehind(lead: string, t: string, c: char, p: string, i: nat)
    requires |lead| == (if IsSpecial(c) then 2 else 1) && 0 < i <= |p| && Stands(t, p, i - 1)
    ensures Stands(lead + t, [c] + p, i)
  {
    assert ([c] + p)[..i + 1] == [c] + p[..i];
    SpecialsCons(c, p[..i]);
  }

  lemma StandsFirst(t: string, c: char, p: string)
    ensures Stands((if IsSpecial(c) then ['\\', c] else [c]) + t, [c] + p, 0)
  {
    assert ([c] + p)[..1] == [c] + "";
    SpecialsCons(c, "");
  }

  lemma {:induction false} EscapedIsEscape(p: string)
    ensures IsEscapeOf(Escaped(p), p)
  {
    if p != "" {
      var c, r := p[0], p[1..];
      var lead := if IsSpecial(c) then ['\\', c] else [c];
      EscapedIsEscape(r);
      assert p == [c] + r && Escaped(p) == lead + Escaped(r);
      SpecialsCons(c, r);
      StandsFirst(Escaped(r), c, r);
      forall i | 0 < i < |p|
        ensures Stands(Escaped(p), p, i)
      {
        StandsBehind(lead, Escaped(r), c, r, i);
      }
    }
  }

  /** Without quotes and backslashes the text is printed as it is. */
  lemma {:induction false} PlainIsPrinted(p: string)
    requires '"' !in p && '\\' !in p
    ensures Escaped(p) == p
  {
    if p != "" {
      PlainIsPrinted(p[1..]);
    }
  }

  // ---------- reading ----------

  datatype Read = Nothing | Read(path: string, rest: string)

  function SkipSpace(s: string): (r: string)
    ensures |r| <= |s|
  {
    if s != "" && IsSpace(s[0]) then SkipSpace(s[1..]) else s
  }

  /** Up to the closing quote, or to the end of the input if there is none. */
  function Quoted(s: string): (r: (string, string)) {
    if s == "" then ("", "")
    else if s[0] == ESCAPE then
      if |s| == 1 then ("", "")
      else
        var r := Quoted(s[2..]);
        ([s[1]] + r.0, r.1)
    else if s[0] == QUOTE then ("", s[1..])
    else
      var r := Quoted(s[1..]);
      ([s[0]] + r.0, r.1)
  }

  function Word(s: string): (r: (string, string)) {
    if s == "" || IsSpace(s[0]) then ("", s)
    else
      var r := Word(s[1..]);
      ([s[0]] + r.0, r.1)
  }

  /** The extractor. Without a quote it reads one character, then a word behind any
      whitespace, and takes both together. */
  function Extracted(input: string): Read {
    var s := SkipSpace(input);
    if s == "" then Nothing
    else if s[0] == QUOTE then
      var r := Quoted(s[1..]);
      Read(Collapse(r.0), r.1)
    else
      var r := Word(SkipSpace(s[1..]));
      Read(Collapse([s[0]] + r.0), r.1)
  }

  // ---------- the round trip ----------

  lemma {:induction false} QuotedEscaped(p: string, t: string, rest: string)
    requires Quoted(t) == ("", rest)
    ensures Quoted(Escaped(p) + t) == (p, rest)
  {
    if p == "" {
      assert Escaped(p) + t == t;
    } else {
      QuotedEscaped(p[1..], t, rest);
      var c := if p[0] == QUOTE || p[0] == ESCAPE then [ESCAPE, p[0]] else [p[0]];
      assert Escaped(p) + t == c + (Escaped(p[1..]) + t);
      assert (c + (Escaped(p[1..]) + t))[|c|..] == Escaped(p[1..]) + t;
      assert p == [p[0]] + p[1..];
    }
  }

  lemma {:induction false} SkipsSpace(space: string, s: string)
    requires (forall i :: 0 <= i < |space| ==> IsSpace(space[i])) && s != "" && !IsSpace(s[0])
    ensures SkipSpace(space + s) == s
  {
    if space == "" {
      assert space + s == s;
    } else {
      assert (space + s)[1..] == space[1..] + s;
      SkipsSpace(space[1..], s);
    }
  }

  /** What was printed is read back, collapsed, and the input behind it is left alone. */
  lemma PrintedIsReadBack(space: string, p: string, rest: string)
    requires forall i :: 0 <= i < |space| ==> IsSpace(space[i])
    ensures Extracted(space + Printed(p) + rest) == Read(Collapse(p), rest)
  {
    var s := Printed(p) + rest;
    assert space + Printed(p) + rest == space + s;
    SkipsSpace(space, s);
    assert s[1..] == Escaped(p) + ([QUOTE] + rest);
    assert ([QUOTE] + rest)[1..] == rest;
    QuotedEscaped(p, [QUOTE] + rest, rest);
  }

  /** A collapsed path comes back unchanged, and printing loses nothing else. */
  lemma CollapsedPathRoundTrips(p: string, rest: string)
    ensures Extracted(Printed(p) + rest) == Read(p, rest) <==> Collapsed(p)
  {
    PrintedIsReadBack("", p, rest);
    assert "" + Printed(p) + rest == Printed(p) + rest;
    CollapseFixed(p);
  }

  /** What can stand between quotes: a character other than a quote and a backslash, or a
      backslash with any character behind it. */
  datatype Piece = Plain(c: char) | Escape(c: char)

  predicate ArePieces(ps: seq<Piece>) {
    forall i :: 0 <= i < |ps| ==> ps[i].Plain? ==> ps[i].c != '"' && ps[i].c != '\\'
  }

  function PieceText(piece: Piece): string {
    if piece.Plain? then [piece.c] else ['\\', piece.c]
  }

  function TextOf(ps: seq<Piece>): string {
    if ps == [] then "" else PieceText(ps[0]) + TextOf(ps[1..])
  }

  function CharsOf(ps: seq<Piece>): (r: string)
    ensures |r| == |ps| && forall i :: 0 <= i < |r| ==> r[i] == ps[i].c
  {
    seq(|ps|, i requires 0 <= i < |ps| => ps[i].c)
  }

  lemma {:induction false} QuotedPieces(ps: seq<Piece>, t: string)
    requires ArePieces(ps)
    ensures Quoted(TextOf(ps) + t) == (CharsOf(ps) + Quoted(t).0, Quoted(t).1)
  {
    if ps == [] {
      assert TextOf(ps) + t == t && CharsOf(ps) + Quoted(t).0 == Quoted(t).0;
    } else {
      QuotedPieces(ps[1..], t);
      FirstPiece(ps, t, Quoted(t).0);
      QuotedPiece(ps[0], TextOf(ps[1..]) + t);
    }
  }

  lemma FirstPiece(ps: seq<Piece>, t: string, u: string)
    requires ps != []
    ensures TextOf(ps) + t == PieceText(ps[0]) + (TextOf(ps[1..]) + t)
    ensures CharsOf(ps) + u == [ps[0].c] + (CharsOf(ps[1..]) + u)
  {
    assert CharsOf(ps) == [ps[0].c] + CharsOf(ps[1..]);
    Rejoined([ps[0].c], CharsOf(ps[1..]), u);
    Rejoined(PieceText(ps[0]), TextOf(ps[1..]), t);
  }

  lemma Rejoined(a: string, b: string, c: string)
    ensures a + b + c == a + (b + c)
  {
  }

  lemma QuotedPiece(piece: Piece, r: string)
    requires ArePieces([piece])
    ensures Quoted(PieceText(piece) + r) == ([piece.c] + Quoted(r).0, Quoted(r).1)
  {
    var t := PieceText(piece);
    assert [piece][0] == piece;
    assert (t + r)[0] == t[0] && (t + r)[|t|..] == r;
  }

  /** Quoted input of any kind: the characters of the pieces are read up to the closing quote,
      or to the end without one, where a last backslash is dropped. */
  lemma QuotedIsRead(ps: seq<Piece>, rest: string)
    requires ArePieces(ps)
    ensures Extracted(['"'] + TextOf(ps) + ['"'] + rest) == Read(Collapse(CharsOf(ps)), rest)
    ensures Extracted(['"'] + TextOf(ps)) == Read(Collapse(CharsOf(ps)), "")
    ensures Extracted(['"'] + TextOf(ps) + ['\\']) == Read(Collapse(CharsOf(ps)), "")
  {
    ReadBehindQuote(ps, ['"'] + rest);
    assert ['"'] + (TextOf(ps) + (['"'] + rest)) == ['"'] + TextOf(ps) + ['"'] + rest;
    assert (['"'] + rest)[1..] == rest;
    ReadBehindQuote(ps, "");
    assert ['"'] + (TextOf(ps) + "") == ['"'] + TextOf(ps);
    ReadBehindQuote(ps, ['\\']);
    assert ['"'] + (TextOf(ps) + ['\\']) == ['"'] + TextOf(ps) + ['\\'];
  }

  lemma ReadBehindQuote(ps: seq<Piece>, t: string)
    requires ArePieces(ps) && Quoted(t).0 == ""
    ensures Extracted(['"'] + (TextOf(ps) + t)) == Read(Collapse(CharsOf(ps)), Quoted(t).1)
  {
    QuotedPieces(ps, t);
    var s := ['"'] + (TextOf(ps) + t);
    assert s[1..] == TextOf(ps) + t && CharsOf(ps) + "" == CharsOf(ps);
  }

  /** Every input behind a quote is of one of those kinds. */
  lemma {:induction false} EveryInputHasPieces(s: string) returns (ps: seq<Piece>, t: string)
    ensures ArePieces(ps) && s == TextOf(ps) + t && (t == "" || t == ['\\'] || t[0] == '"')
    decreases |s|
  {
    if s == "" || s == ['\\'] || s[0] == '"' {
      ps, t := [], s;
      assert "" + s == s;
    } else if s[0] == '\\' {
      var qs, u := EveryInputHasPieces(s[2..]);
      ps, t := [Escape(s[1])] + qs, u;
      assert ps[1..] == qs && TextOf(ps) == [s[0], s[1]] + TextOf(qs);
      assert s == [s[0], s[1]] + (TextOf(qs) + u);
    } else {
      var qs, u := EveryInputHasPieces(s[1..]);
      ps, t := [Plain(s[0])] + qs, u;
      assert ps[1..] == qs && TextOf(ps) == [s[0]] + TextOf(qs);
      assert s == [s[0]] + (TextOf(qs) + u);
    }
  }

  /** Words end at blanks, tabs, line ends and the like, and nowhere else. */
  lemma SpacesAre(c: char)
    ensures IsSpace(c) <==> c in {' ', '\t', '\n', '\U{b}', '\U{c}', '\r'}
  {
  }

  predicate IsWord(w: string) {
    w != "" && w[0] != QUOTE && forall i :: 0 <= i < |w| ==> !IsSpace(w[i])
  }

  lemma {:induction false} WordIs(w: string, rest: string)
    requires (forall i :: 0 <= i < |w| ==> !IsSpace(w[i])) && (rest == "" || IsSpace(rest[0]))
    ensures Word(w + rest) == (w, rest)
  {
    if w == "" {
      assert w + rest == rest;
    } else {
      assert (w + rest)[1..] == w[1..] + rest;
      WordIs(w[1..], rest);
      assert w == [w[0]] + w[1..];
    }
  }

  lemma {:induction false} WordShortens(s: string)
    ensures |Word(s).1| <= |s|
  {
    if s != "" && !IsSpace(s[0]) {
      WordShortens(s[1..]);
    }
  }

  /** An unquoted word is read as it stands, unless it is a single character with anything
      behind it: then the whitespace and the next word are taken along. */
  lemma WordIsReadIff(w: string, rest: string)
    requires IsWord(w) && (rest == "" || IsSpace(rest[0]))
    ensures Extracted(w + rest) == Read(Collapse(w), rest) <==> |w| > 1 || rest == ""
  {
    var s := w + rest;
    assert s[1..] == w[1..] + rest;
    assert w == [s[0]] + w[1..];
    if |w| > 1 {
      assert !IsSpace(s[1..][0]);
      WordIs(w[1..], rest);
    } else {
      assert w[1..] + rest == rest;
      WordShortens(SkipSpace(rest));
    }
  }

  /** What that gives: the character and the next word, run together. */
  lemma SingleTakesNext(c: char, space: string, w: string, rest: string)
    requires !IsSpace(c) && c != '"' && w != "" && (rest == "" || IsSpace(rest[0]))
    requires (forall i :: 0 <= i < |space| ==> IsSpace(space[i])) && (forall i :: 0 <= i < |w| ==> !IsSpace(w[i]))
    ensures Extracted([c] + (space + (w + rest))) == Read(Collapse([c] + w), rest)
  {
    var s := [c] + (space + (w + rest));
    assert s[1..] == space + (w + rest) && (w + rest)[0] == w[0];
    SkipsSpace(space, w + rest);
    WordIs(w, rest);
  }

  // ---------- the code ----------

  /** The path between quotes, escaped where it has to be. */
  ghost predicate IsPrintOf(os: string, p: string) {
    && |os| >= 2 && os[0] == '"' && os[|os| - 1] == '"' && IsEscapeOf(os[1..|os| - 1], p)
    && ('"' !in p && '\\' !in p ==> os == ['"'] + p + ['"'])
  }

  lemma PrintedIs(p: string)
    ensures IsPrintOf(Printed(p), p)
  {
    var os := Printed(p);
    assert os[1..|os| - 1] == Escaped(p);
    EscapedIsEscape(p);
    if '"' !in p && '\\' !in p {
      PlainIsPrinted(p);
    }
  }

  lemma PrintedAlwaysReads(p: string)
    ensures forall rest :: Extracted(Printed(p) + rest) == Read(Collapse(p), rest)
  {
    forall rest
      ensures Extracted(Printed(p) + rest) == Read(Collapse(p), rest)
    {
      PrintedIsReadBack("", p, rest);
      assert "" + Printed(p) + rest == Printed(p) + rest;
    }
  }

  method WritePath(p: string) returns (os: string)
    ensures IsPrintOf(os, p)
    ensures forall rest :: Extracted(os + rest) == Read(Collapse(p), rest)
  {
    os := [QUOTE];
    for i := 0 to |p|
      invariant os + Escaped(p[i..]) == [QUOTE] + Escaped(p)
    {
      assert p[i..][1..] == p[i + 1..];
      if p[i] == QUOTE || p[i] == ESCAPE {
        os := os + [ESCAPE];
      }
      os := os + [p[i]];
    }
    assert p[|p|..] == "";
    os := os + [QUOTE];
    assert os == Printed(p);
    PrintedIs(p);
    PrintedAlwaysReads(p);
  }

  /** The loop behind the opening quote. */
  method ReadQuoted(s: string) returns (tmp: string, rest: string)
    ensures tmp == Quoted(s).0 && rest == Quoted(s).1
  {
    tmp, rest := "", "";
    var pos := 0;
    while pos < |s|
      invariant 0 <= pos <= |s|
      invariant Quoted(s).0 == tmp + Quoted(s[pos..]).0
      invariant Quoted(s).1 == Quoted(s[pos..]).1
    {
      var c := s[pos];
      assert s[pos..][1..] == s[pos + 1..];
      if c == ESCAPE {
        if pos + 1 < |s| {
          assert s[pos..][2..] == s[pos + 2..];
          tmp := tmp + [s[pos + 1]];
          pos := pos + 1;
        }
      } else if c == QUOTE {
        assert tmp + "" == tmp;
        return tmp, s[pos + 1..];
      } else {
        tmp := tmp + [c];
      }
      pos := pos + 1;
    }
    assert s[|s|..] == "" && tmp + "" == tmp;
  }

  method ReadPath(input: string) returns (r: Read)
    ensures r == Extracted(input)
  {
    var s := SkipSpace(input);
    if s == "" {
      r := Nothing;
    } else if s[0] == QUOTE {
      var tmp, rest := ReadQuoted(s[1..]);
      r := Read(Collapse(tmp), rest);
    } else {
      var w := Word(SkipSpace(s[1..]));
      r := Read(Collapse([s[0]] + w.0), w.1);
    }
  }
}
