/**
  The UTF-8 half of the codec in `filesystem.hpp`: the packed decoding automaton,
  the encoder, the validator and the 32-bit decoder, in the build that replaces
  malformed input by U+FFFD.

  The methods follow the code bit by bit. The functions are the reference they are
  proved against: the byte ranges of section 4 of RFC 3629, written out as ranges.
  */
module Utf8Codec {
  const START: bv32 := 0
  const REJECT: bv32 := 8
  const REPLACEMENT: bv32 := 0xfffd

  /** The state of the decoding automaton: its number and the bits collected so far. */
  datatype Dfa = Dfa(state: bv32, codepoint: bv32)

  const INITIAL := Dfa(START, 0)

  /** Unicode scalar values: every code point that is not a surrogate. */
  predicate IsScalar(u: bv32) {
    u <= 0x10ffff && !(0xd800 <= u <= 0xdfff)
  }

  predicate AllScalar(s: seq<bv32>) {
    forall i :: 0 <= i < |s| ==> IsScalar(s[i])
  }

  // ---------- the packed automaton, as the code computes it ----------

  /** The table `utf8_state_info`: eight nibbles to a word. */
  function StateInfo(i: bv32): bv32 {
    if i <= 1 then 0x11111111
    else if i <= 3 then 0x77777777
    else if i <= 7 then 0x88888888
    else if i == 8 then 0x22222299
    else if i <= 11 then 0x22222222
    else if i == 12 then 0x3333333a
    else if i == 13 then 0x33433333
    else if i == 14 then 0x9995666b
    else if i == 15 then 0x99999999
    else if i == 16 then 0x88888880
    else if i == 17 then 0x22818108
    else if i == 18 then 0x88888881
    else if i == 19 then 0x88888882
    else if i == 20 then 0x88888884
    else if i == 21 then 0x88888887
    else if i == 22 then 0x88888886
    else if i == 23 then 0x82218108
    else if i == 24 then 0x82281108
    else if i == 25 then 0x88888888
    else if i == 26 then 0x88888883
    else if i == 27 then 0x88888885
    else 0
  }

  function Category(fragment: bv8): (c: bv32)
    ensures c <= 11
  {
    var f := fragment as bv32;
    if f < 128 then 0 else (StateInfo((f >> 3) & 0xf) >> ((f & 7) << 2)) & 0xf
  }

  function PackedState(state: bv32, category: bv32): bv32
    requires state < REJECT && category <= 11
  {
    (StateInfo(category + 16) >> (state << 2)) & 0xf
  }

  function PackedBits(d: Dfa, category: bv32, fragment: bv8): bv32
    requires category <= 11
  {
    var f := fragment as bv32;
    if d.state != 0 then (d.codepoint << 6) | (f & 0x3f) else (0xff >> category) & f
  }

  // ---------- the reference automaton: RFC 3629, section 4 ----------

  /** States 1 and 2 expect one and two more bytes; states 3 to 7 are the lead bytes
      whose second byte is restricted or which expect three more bytes. */
  function Next(state: bv32, f: bv8): bv32 {
    if state == 0 then
      if f <= 0x7f then 0
      else if 0xc2 <= f <= 0xdf then 1
      else if f == 0xe0 then 3
      else if f == 0xed then 4
      else if 0xe1 <= f <= 0xef then 2
      else if f == 0xf0 then 5
      else if 0xf1 <= f <= 0xf3 then 6
      else if f == 0xf4 then 7
      else REJECT
    else if state == 1 then if 0x80 <= f <= 0xbf then 0 else REJECT
    else if state == 2 then if 0x80 <= f <= 0xbf then 1 else REJECT
    else if state == 3 then if 0xa0 <= f <= 0xbf then 1 else REJECT
    else if state == 4 then if 0x80 <= f <= 0x9f then 1 else REJECT
    else if state == 5 then if 0x90 <= f <= 0xbf then 2 else REJECT
    else if state == 6 then if 0x80 <= f <= 0xbf then 2 else REJECT
    else if state == 7 then if 0x80 <= f <= 0x8f then 2 else REJECT
    else REJECT
  }

  /** The payload bits of section 3 of RFC 3629. */
  function Bits(d: Dfa, f: bv8): bv32 {
    var w := f as bv32;
    if d.state != 0 then (d.codepoint << 6) | (w & 0x3f)
    else if w <= 0x7f then w
    else if w <= 0xdf then w & 0x1f
    else if w <= 0xef then w & 0x0f
    else w & 0x07
  }

  function Step(d: Dfa, f: bv8): Dfa {
    Dfa(Next(d.state, f), Bits(d, f))
  }

  /** `n` is the reference step; the bits left behind by a rejection are not used. */
  predicate Reads(d: Dfa, f: bv8, n: Dfa) {
    n == Step(d, f) || (n.state == REJECT && Next(d.state, f) == REJECT)
  }

  lemma CategoryIs(f: bv8)
    ensures Category(f) ==
            if f < 0x80 then 0 else if f < 0x90 then 1 else if f < 0xa0 then 7 else if f < 0xc0 then 8
            else if f < 0xc2 then 9 else if f < 0xe0 then 2 else if f == 0xe0 then 10
            else if f == 0xed then 4 else if f < 0xf0 then 3 else if f == 0xf0 then 11
            else if f < 0xf4 then 6 else if f == 0xf4 then 5 else 9
  {
  }

  lemma StateIs(state: bv32, f: bv8)
    requires state < REJECT
    ensures PackedState(state, Category(f)) == Next(state, f)
  {
    CategoryIs(f);
  }

  lemma BitsAre(d: Dfa, f: bv8)
    requires Next(d.state, f) != REJECT
    ensures PackedBits(d, Category(f), f) == Bits(d, f)
  {
    CategoryIs(f);
  }

  /** One step of the automaton as coded: the packed table is the RFC's table. */
  method ConsumeUtf8Fragment(d: Dfa, fragment: bv8) returns (n: Dfa)
    requires d.state <= REJECT
    ensures n.state <= REJECT && Reads(d, fragment, n)
  {
    var category := Category(fragment);
    var codepoint := PackedBits(d, category, fragment);
    var state := if d.state == REJECT then REJECT else PackedState(d.state, category);
    n := Dfa(state, codepoint);
    if d.state < REJECT {
      StateIs(d.state, fragment);
      if state != REJECT {
        BitsAre(d, fragment);
      }
    }
  }

  /** Whether the automaton, started in `d`, ends in the start state without rejecting. */
  predicate Accepts(b: seq<bv8>, d: Dfa) {
    if b == [] then d.state == START
    else
      var n := Step(d, b[0]);
      n.state != REJECT && Accepts(b[1..], n)
  }

  /** What the decoder appends, started in `d`: one code point for each character, one
      U+FFFD for each rejection (the rejected byte is dropped), one for a cut-off end. */
  function DecodeFrom(b: seq<bv8>, d: Dfa): (s: seq<bv32>)
    ensures |s| <= |b| + (if d.state == START then 0 else 1)
  {
    if b == [] then if d.state != START then [REPLACEMENT] else []
    else
      var n := Step(d, b[0]);
      if n.state == START then [n.codepoint] + DecodeFrom(b[1..], INITIAL)
      else if n.state == REJECT then [REPLACEMENT] + DecodeFrom(b[1..], INITIAL)
      else DecodeFrom(b[1..], n)
  }

  function Decode(b: seq<bv8>): seq<bv32> {
    DecodeFrom(b, INITIAL)
  }

  // ---------- the encoder ----------

  /** `appendUTF8`: what is appended for one code point. */
  function EncodeChar(u: bv32): (s: seq<bv8>)
    ensures 1 <= |s| <= 4
    decreases !IsScalar(u)
  {
    if u <= 0x7f then [u as bv8]
    else if u >= 0x80 && u <= 0x7ff then
      [((u >> 6) + 192) as bv8, ((u & 0x3f) + 128) as bv8]
    else if (u >= 0x800 && u <= 0xd7ff) || (u >= 0xe000 && u <= 0xffff) then
      [((u >> 12) + 224) as bv8, (((u & 0xfff) >> 6) + 128) as bv8, ((u & 0x3f) + 128) as bv8]
    else if u >= 0x10000 && u <= 0x10ffff then
      [((u >> 18) + 240) as bv8, (((u & 0x3ffff) >> 12) + 128) as bv8,
       (((u & 0xfff) >> 6) + 128) as bv8, ((u & 0x3f) + 128) as bv8]
    else EncodeChar(REPLACEMENT)
  }

  function Encode(s: seq<bv32>): seq<bv8> {
    if s == [] then [] else EncodeChar(s[0]) + Encode(s[1..])
  }

  /** A byte string is well-formed UTF-8 when it spells some scalar values. */
  ghost predicate IsEncoding(b: seq<bv8>) {
    exists s: seq<bv32> :: AllScalar(s) && Encode(s) == b
  }

  // ---------- one character ----------

  lemma Steps2(u: bv32, c: bv32, b0: bv8, b1: bv8)
    requires 0x80 <= u <= 0x7ff
    requires b0 == ((u >> 6) + 192) as bv8 && b1 == ((u & 0x3f) + 128) as bv8
    ensures Step(Dfa(START, c), b0).state == 1
    ensures Step(Step(Dfa(START, c), b0), b1) == Dfa(START, u)
  {
  }

  lemma Steps3(u: bv32, c: bv32, b0: bv8, b1: bv8, b2: bv8)
    requires 0x800 <= u <= 0xffff && IsScalar(u)
    requires b0 == ((u >> 12) + 224) as bv8 && b1 == (((u & 0xfff) >> 6) + 128) as bv8
    requires b2 == ((u & 0x3f) + 128) as bv8
    ensures 2 <= Step(Dfa(START, c), b0).state <= 4
    ensures var d1 := Step(Dfa(START, c), b0);
            Step(d1, b1).state == 1 && Step(Step(d1, b1), b2) == Dfa(START, u)
  {
  }

  lemma Steps4(u: bv32, c: bv32, b0: bv8, b1: bv8, b2: bv8, b3: bv8)
    requires 0x10000 <= u <= 0x10ffff
    requires b0 == ((u >> 18) + 240) as bv8 && b1 == (((u & 0x3ffff) >> 12) + 128) as bv8
    requires b2 == (((u & 0xfff) >> 6) + 128) as bv8 && b3 == ((u & 0x3f) + 128) as bv8
    ensures 5 <= Step(Dfa(START, c), b0).state <= 7
    ensures var d1 := Step(Dfa(START, c), b0);
            var d2 := Step(d1, b1);
            d2.state == 2 && Step(d2, b2).state == 1 && Step(Step(d2, b2), b3) == Dfa(START, u)
  {
  }

  /** The automaton's run over the encoding of one scalar value. */
  ghost predicate IsRun(e: seq<bv8>, ds: seq<Dfa>) {
    && |ds| == |e| + 1
    && (forall i :: 0 <= i < |e| ==> ds[i + 1] == Step(ds[i], e[i]))
    && (forall i :: 0 < i < |e| ==> ds[i].state != START && ds[i].state != REJECT)
    && ds[|e|].state == START
  }

  lemma RunOf(u: bv32, c: bv32) returns (ds: seq<Dfa>)
    requires IsScalar(u)
    ensures IsRun(EncodeChar(u), ds)
    ensures ds[0] == Dfa(START, c) && ds[|ds| - 1] == Dfa(START, u)
  {
    var e := EncodeChar(u);
    var d0 := Dfa(START, c);
    if u <= 0x7f {
      ds := [d0, Step(d0, e[0])];
    } else if u <= 0x7ff {
      Steps2(u, c, e[0], e[1]);
      var d1 := Step(d0, e[0]);
      ds := [d0, d1, Step(d1, e[1])];
    } else if u <= 0xffff {
      Steps3(u, c, e[0], e[1], e[2]);
      var d1 := Step(d0, e[0]);
      var d2 := Step(d1, e[1]);
      ds := [d0, d1, d2, Step(d2, e[2])];
    } else {
      Steps4(u, c, e[0], e[1], e[2], e[3]);
      var d1 := Step(d0, e[0]);
      var d2 := Step(d1, e[1]);
      var d3 := Step(d2, e[2]);
      ds := [d0, d1, d2, d3, Step(d3, e[3])];
    }
  }

  lemma {:induction false} RunThrough(e: seq<bv8>, ds: seq<Dfa>, rest: seq<bv8>, i: nat)
    requires IsRun(e, ds) && i < |e|
    ensures DecodeFrom(e[i..] + rest, ds[i]) == [ds[|e|].codepoint] + DecodeFrom(rest, INITIAL)
    ensures Accepts(e[i..] + rest, ds[i]) == Accepts(rest, ds[|e|])
    decreases |e| - i
  {
    var t := e[i..] + rest;
    assert t[0] == e[i] && t[1..] == e[i + 1..] + rest;
    if i + 1 < |e| {
      RunThrough(e, ds, rest, i + 1);
    } else {
      assert e[i + 1..] + rest == rest;
    }
  }

  lemma StartIgnoresBits(b: seq<bv8>, c: bv32)
    ensures DecodeFrom(b, Dfa(START, c)) == DecodeFrom(b, INITIAL)
    ensures Accepts(b, Dfa(START, c)) == Accepts(b, INITIAL)
  {
    if b != [] {
      assert Step(Dfa(START, c), b[0]) == Step(INITIAL, b[0]);
    }
  }

  /** A leading character decodes to itself and leaves the rest alone. */
  lemma DecodeChar(u: bv32, rest: seq<bv8>)
    requires IsScalar(u)
    ensures Decode(EncodeChar(u) + rest) == [u] + Decode(rest)
    ensures Accepts(EncodeChar(u) + rest, INITIAL) == Accepts(rest, INITIAL)
  {
    var e := EncodeChar(u);
    var ds := RunOf(u, 0);
    assert e[0..] == e;
    RunThrough(e, ds, rest, 0);
    StartIgnoresBits(rest, u);
  }

  // ---------- from accepted bytes back to characters ----------

  lemma Spells1(b0: bv8)
    requires Next(START, b0) == START
    ensures IsScalar(Bits(INITIAL, b0)) && EncodeChar(Bits(INITIAL, b0)) == [b0]
  {
  }

  lemma Spells2(b0: bv8, b1: bv8)
    requires Next(START, b0) == 1 && Next(1, b1) == START
    ensures var u := Step(Step(INITIAL, b0), b1).codepoint;
            IsScalar(u) && EncodeChar(u) == [b0, b1]
  {
  }

  lemma Spells3(b0: bv8, b1: bv8, b2: bv8)
    requires 2 <= Next(START, b0) <= 4 && Next(Next(START, b0), b1) == 1 && Next(1, b2) == START
    ensures var u := Step(Step(Step(INITIAL, b0), b1), b2).codepoint;
            IsScalar(u) && EncodeChar(u) == [b0, b1, b2]
  {
  }

  lemma Spells4(b0: bv8, b1: bv8, b2: bv8, b3: bv8)
    requires 5 <= Next(START, b0) <= 7 && Next(Next(START, b0), b1) == 2
    requires Next(2, b2) == 1 && Next(1, b3) == START
    ensures var u := Step(Step(Step(Step(INITIAL, b0), b1), b2), b3).codepoint;
            IsScalar(u) && EncodeChar(u) == [b0, b1, b2, b3]
  {
  }

  /** A run of the automaton over one character spells a scalar value. */
  lemma RunSpells(e: seq<bv8>, ds: seq<Dfa>)
    requires IsRun(e, ds) && ds[0] == INITIAL && e != []
    ensures var u := ds[|e|].codepoint;
            IsScalar(u) && EncodeChar(u) == e
  {
    assert ds[1] == Step(ds[0], e[0]);
    if |e| == 1 {
      Spells1(e[0]);
    } else {
      assert ds[2] == Step(ds[1], e[1]);
      if |e| == 2 {
        Spells2(e[0], e[1]);
      } else {
        assert ds[3] == Step(ds[2], e[2]);
        if |e| == 3 {
          Spells3(e[0], e[1], e[2]);
        } else {
          assert ds[4] == Step(ds[3], e[3]);
          Spells4(e[0], e[1], e[2], e[3]);
          assert |e| == 4;
        }
      }
    }
  }

  lemma {:induction false} FirstRun(b: seq<bv8>, d: Dfa) returns (ds: seq<Dfa>)
    requires Accepts(b, d) && b != []
    ensures 2 <= |ds| <= |b| + 1 && IsRun(b[..|ds| - 1], ds) && ds[0] == d
  {
    var n := Step(d, b[0]);
    if n.state == START {
      ds := [d, n];
    } else {
      var rest := FirstRun(b[1..], n);
      ds := [d] + rest;
      assert b[..|ds| - 1] == [b[0]] + b[1..][..|rest| - 1];
    }
  }

  /** An accepted non-empty string starts with the encoding of a scalar value. */
  lemma FirstChar(b: seq<bv8>) returns (u: bv32, n: nat)
    requires Accepts(b, INITIAL) && b != []
    ensures 1 <= n <= |b| && IsScalar(u) && EncodeChar(u) == b[..n] && Accepts(b[n..], INITIAL)
  {
    var ds := FirstRun(b, INITIAL);
    n := |ds| - 1;
    RunSpells(b[..n], ds);
    assert b[..n][0..] + b[n..] == b;
    RunThrough(b[..n], ds, b[n..], 0);
    u := ds[n].codepoint;
    StartIgnoresBits(b[n..], u);
  }

  // ---------- whole strings ----------

  lemma {:induction false} DecodeEncodePrefix(s: seq<bv32>, rest: seq<bv8>)
    requires AllScalar(s)
    ensures Decode(Encode(s) + rest) == s + Decode(rest)
    ensures Accepts(Encode(s) + rest, INITIAL) == Accepts(rest, INITIAL)
  {
    if s == [] {
      assert Encode(s) + rest == rest;
    } else {
      DecodeEncodePrefix(s[1..], rest);
      DecodeChar(s[0], Encode(s[1..]) + rest);
      assert Encode(s) + rest == EncodeChar(s[0]) + (Encode(s[1..]) + rest);
    }
  }

  lemma DecodeEncode(s: seq<bv32>)
    requires AllScalar(s)
    ensures Decode(Encode(s)) == s
    ensures Accepts(Encode(s), INITIAL)
  {
    DecodeEncodePrefix(s, []);
    assert Encode(s) + [] == Encode(s);
  }

  lemma {:induction false} EncodeDecode(b: seq<bv8>)
    requires Accepts(b, INITIAL)
    ensures Encode(Decode(b)) == b && AllScalar(Decode(b))
    decreases |b|
  {
    if b != [] {
      var u, n := FirstChar(b);
      EncodeDecode(b[n..]);
      DecodeChar(u, b[n..]);
      assert b == EncodeChar(u) + b[n..];
      assert Decode(b)[0] == u && Decode(b)[1..] == Decode(b[n..]);
    }
  }

  /** The automaton accepts exactly the encodings of scalar values. */
  lemma AcceptsIffEncoding(b: seq<bv8>)
    ensures Accepts(b, INITIAL) <==> IsEncoding(b)
  {
    if Accepts(b, INITIAL) {
      EncodeDecode(b);
    }
    if IsEncoding(b) {
      var s :| AllScalar(s) && Encode(s) == b;
      DecodeEncode(s);
    }
  }

  /** No two sequences of scalar values share an encoding. */
  lemma EncodingIsUnique(s: seq<bv32>, t: seq<bv32>)
    requires AllScalar(s) && AllScalar(t) && Encode(s) == Encode(t)
    ensures s == t
  {
    DecodeEncode(s);
    DecodeEncode(t);
  }

  /** The scalar values a 32-bit string stands for once illegal ones are replaced. */
  function Sanitized(s: seq<bv32>): (r: seq<bv32>)
    ensures |r| == |s| && AllScalar(r)
    ensures forall i :: 0 <= i < |s| ==> r[i] == if IsScalar(s[i]) then s[i] else REPLACEMENT
  {
    seq(|s|, i requires 0 <= i < |s| => if IsScalar(s[i]) then s[i] else REPLACEMENT)
  }

  lemma EncodeCharSanitizes(u: bv32)
    ensures EncodeChar(u) == EncodeChar(if IsScalar(u) then u else REPLACEMENT)
  {
  }

  /** Whatever code point is appended, a decoder reads it, or the replacement character for
      what is no scalar value, and then what follows. */
  lemma AppendedCharIsRead(u: bv32, rest: seq<bv8>)
    ensures Decode(EncodeChar(u) + rest) == [if IsScalar(u) then u else REPLACEMENT] + Decode(rest)
  {
    EncodeCharSanitizes(u);
    DecodeChar(if IsScalar(u) then u else REPLACEMENT, rest);
  }

  lemma {:induction false} EncodeSanitizes(s: seq<bv32>)
    ensures Encode(s) == Encode(Sanitized(s))
  {
    if s != [] {
      EncodeCharSanitizes(s[0]);
      EncodeSanitizes(s[1..]);
      assert Sanitized(s)[1..] == Sanitized(s[1..]);
    }
  }

  /** Whatever is encoded, the result is well-formed and decodes to the sanitized input. */
  lemma EncodeIsAlwaysValid(s: seq<bv32>)
    ensures Accepts(Encode(s), INITIAL)
    ensures Decode(Encode(s)) == Sanitized(s)
  {
    EncodeSanitizes(s);
    DecodeEncode(Sanitized(s));
  }

  /** Decoding then encoding gives the bytes back exactly on well-formed input. */
  lemma BytesRoundTripIffValid(b: seq<bv8>)
    ensures Encode(Decode(b)) == b <==> Accepts(b, INITIAL)
  {
    if Accepts(b, INITIAL) {
      EncodeDecode(b);
    } else {
      EncodeIsAlwaysValid(Decode(b));
    }
  }

  /** Encoding then decoding gives the code points back exactly when all are scalar values. */
  lemma CodePointsRoundTripIffScalar(s: seq<bv32>)
    ensures Decode(Encode(s)) == s <==> AllScalar(s)
  {
    EncodeIsAlwaysValid(s);
    if AllScalar(s) {
      DecodeEncode(s);
    }
  }

  // ---------- every output is a scalar value, on every input ----------

  /** What the collected bits can be in each state; it makes the next scalar legal. */
  predicate Collected(d: Dfa) {
    var c := d.codepoint;
    if d.state == 0 then true
    else if d.state == 1 then 2 <= c <= 0x43ff && !(0x360 <= c <= 0x37f)
    else if d.state == 2 then 1 <= c <= 0x10f && c != 0xd
    else if d.state == 3 then c == 0
    else if d.state == 4 then c == 0xd
    else if d.state == 5 then c == 0
    else if d.state == 6 then 1 <= c <= 3
    else d.state == 7 && c == 4
  }

  lemma StepKeepsCollected(d: Dfa, f: bv8)
    requires Collected(d)
    ensures var n := Step(d, f);
            n.state != REJECT ==> Collected(n) && (n.state == START ==> IsScalar(n.codepoint))
  {
  }

  lemma {:induction false} DecodeFromIsScalar(b: seq<bv8>, d: Dfa)
    requires Collected(d)
    ensures AllScalar(DecodeFrom(b, d))
  {
    if b != [] {
      var n := Step(d, b[0]);
      StepKeepsCollected(d, b[0]);
      if n.state == START || n.state == REJECT {
        DecodeFromIsScalar(b[1..], INITIAL);
      } else {
        DecodeFromIsScalar(b[1..], n);
      }
    }
  }

  /** On any bytes at all the decoder emits scalar values only, so it is a projection:
      encoding what it made of the input and decoding again changes nothing. */
  lemma DecodeIsProjection(b: seq<bv8>)
    ensures AllScalar(Decode(b)) && Decode(Encode(Decode(b))) == Decode(b) && |Decode(b)| <= |b|
  {
    DecodeFromIsScalar(b, INITIAL);
    DecodeEncode(Decode(b));
  }

  /** Where the decoder stands after `b`: it starts anew after each character and each
      rejection. */
  function EndOf(b: seq<bv8>, d: Dfa): Dfa {
    if b == [] then d
    else
      var n := Step(d, b[0]);
      EndOf(b[1..], if n.state == START || n.state == REJECT then INITIAL else n)
  }

  /** What it has written by then. */
  function Written(b: seq<bv8>, d: Dfa): seq<bv32> {
    if b == [] then []
    else
      var n := Step(d, b[0]);
      if n.state == START then [n.codepoint] + Written(b[1..], INITIAL)
      else if n.state == REJECT then [REPLACEMENT] + Written(b[1..], INITIAL)
      else Written(b[1..], n)
  }

  lemma {:induction false} DecodeSplits(a: seq<bv8>, b: seq<bv8>, d: Dfa)
    ensures DecodeFrom(a + b, d) == Written(a, d) + DecodeFrom(b, EndOf(a, d))
    decreases |a|
  {
    if a == [] {
      assert a + b == b;
    } else {
      var n := Step(d, a[0]);
      assert (a + b)[1..] == a[1..] + b;
      DecodeSplits(a[1..], b, if n.state == START || n.state == REJECT then INITIAL else n);
    }
  }

  lemma {:induction false} EndStands(b: seq<bv8>, d: Dfa)
    requires d.state < REJECT && (d.state == START ==> d == INITIAL)
    ensures EndOf(b, d).state < REJECT && (EndOf(b, d).state == START ==> EndOf(b, d) == INITIAL)
    decreases |b|
  {
    if b != [] {
      var n := Step(d, b[0]);
      EndStands(b[1..], if n.state == START || n.state == REJECT then INITIAL else n);
    }
  }

  /** A letter that follows a cut-off character is swallowed. */
  lemma LetterIsSwallowed(d: Dfa)
    requires d.state < REJECT && d.state != START
    ensures DecodeFrom([0x41], d) == [REPLACEMENT] && DecodeFrom([], d) == [REPLACEMENT]
    ensures DecodeFrom([0x41], INITIAL) == [0x41]
  {
    assert Step(d, 0x41).state == REJECT;
    assert Step(INITIAL, 0x41) == Dfa(START, 0x41);
    assert [0x41][1..] == [];
  }

  /** The byte that makes the automaton reject is dropped with the broken character. So what
      follows `a` is decoded on its own, if and only if `a` does not end in a cut-off character. */
  lemma PrefixIsIndependentIff(a: seq<bv8>)
    ensures (forall b :: Decode(a + b) == Decode(a) + Decode(b)) <==> EndOf(a, INITIAL).state == START
  {
    var d := EndOf(a, INITIAL);
    EndStands(a, INITIAL);
    DecodeSplits(a, [], INITIAL);
    assert a + [] == a;
    if d.state == START {
      forall b
        ensures Decode(a + b) == Decode(a) + Decode(b)
      {
        DecodeSplits(a, b, INITIAL);
        assert Written(a, INITIAL) + [] == Written(a, INITIAL);
      }
    } else {
      var b := [0x41];
      DecodeSplits(a, b, INITIAL);
      LetterIsSwallowed(d);
      assert |Decode(a + b)| < |Decode(a)| + |Decode(b)|;
    }
  }

  /** Well-formed strings are among them. */
  lemma {:induction false} ValidEndsAtStart(b: seq<bv8>, d: Dfa)
    requires Accepts(b, d) && d.state < REJECT
    ensures EndOf(b, d).state == START
    decreases |b|
  {
    if b != [] {
      var n := Step(d, b[0]);
      if n.state == START {
        StartIgnoresBits(b[1..], n.codepoint);
        ValidEndsAtStart(b[1..], INITIAL);
      } else {
        ValidEndsAtStart(b[1..], n);
      }
    }
  }

  // ---------- malformed input ----------

  /** The bytes begin the encoding of some character, and more are missing. */
  ghost predicate IsCutOff(b: seq<bv8>) {
    exists u :: IsScalar(u) && b < EncodeChar(u)
  }

  ghost predicate IsOneChar(b: seq<bv8>) {
    exists u :: IsScalar(u) && b == EncodeChar(u)
  }

  /** The automaton over the beginning of a character. */
  ghost predicate IsPath(b: seq<bv8>, ds: seq<Dfa>) {
    && |ds| == |b| + 1 && ds[0] == INITIAL
    && (forall i :: 0 <= i < |b| ==> ds[i + 1] == Step(ds[i], b[i]))
    && (forall i :: 0 < i <= |b| ==> ds[i].state != START && ds[i].state != REJECT)
  }

  lemma CutOffHasPath(b: seq<bv8>) returns (ds: seq<Dfa>)
    requires IsCutOff(b)
    ensures IsPath(b, ds)
  {
    var u :| IsScalar(u) && b < EncodeChar(u);
    ds := RunOf(u, 0);
    ds := ds[..|b| + 1];
  }

  lemma {:induction false} DecodeAlong(b: seq<bv8>, ds: seq<Dfa>, rest: seq<bv8>, i: nat)
    requires IsPath(b, ds) && i <= |b|
    ensures DecodeFrom(b[i..] + rest, ds[i]) == DecodeFrom(rest, ds[|b|])
    decreases |b| - i
  {
    var t := b[i..] + rest;
    if i < |b| {
      assert t[0] == b[i] && t[1..] == b[i + 1..] + rest;
      DecodeAlong(b, ds, rest, i + 1);
    } else {
      assert t == rest;
    }
  }

  /** A path that ends with a step to the start state spells a character. */
  lemma PathToStart(b: seq<bv8>, ds: seq<Dfa>, f: bv8)
    requires IsPath(b, ds) && Step(ds[|b|], f).state == START
    ensures IsScalar(Step(ds[|b|], f).codepoint) && EncodeChar(Step(ds[|b|], f).codepoint) == b + [f]
  {
    var e, es := b + [f], ds + [Step(ds[|b|], f)];
    assert forall i :: 0 <= i < |e| ==> es[i + 1] == Step(es[i], e[i]);
    RunSpells(e, es);
  }

  /** From every state inside a character some byte leads nearer to its end. */
  lemma Nearer(state: bv32) returns (f: bv8)
    requires 0 < state < REJECT
    ensures Next(state, f) < state && Next(state, f) != REJECT && (Next(state, f) == START <==> state == 1)
  {
    f := if state == 3 then 0xa0 else if state == 5 then 0x90 else 0x80;
  }

  lemma StateOfPath(b: seq<bv8>, ds: seq<Dfa>)
    requires IsPath(b, ds) && b != []
    ensures 0 < ds[|b|].state < REJECT
  {
    assert ds[|b|] == Step(ds[|b| - 1], b[|b| - 1]);
  }

  /** So every path is the beginning of a character. */
  lemma {:induction false} PathIsCutOff(b: seq<bv8>, ds: seq<Dfa>)
    requires IsPath(b, ds)
    ensures IsCutOff(b)
    decreases b == [], if b == [] then 0 else ds[|b|].state
  {
    if b == [] {
      assert EncodeChar(0) == [0];
      assert [] < EncodeChar(0);
    } else {
      StateOfPath(b, ds);
      var f := Nearer(ds[|b|].state);
      var n := Step(ds[|b|], f);
      if n.state == START {
        PathToStart(b, ds, f);
        assert b < EncodeChar(n.codepoint);
      } else {
        PathIsCutOff(b + [f], ds + [n]);
        var u :| IsScalar(u) && b + [f] < EncodeChar(u);
        assert b < EncodeChar(u);
      }
    }
  }

  /** A character that is cut off at the end is read as U+FFFD. */
  lemma CutOffIsReplaced(b: seq<bv8>)
    requires IsCutOff(b) && b != []
    ensures Decode(b) == [0xfffd]
  {
    var ds := CutOffHasPath(b);
    DecodeAlong(b, ds, [], 0);
    assert b[0..] + [] == b;
  }

  /** The beginning of a character and a byte that cannot follow it are together read as
      U+FFFD, and decoding goes on behind them. */
  lemma BrokenIsReplaced(b: seq<bv8>, f: bv8, rest: seq<bv8>)
    requires IsCutOff(b) && !IsCutOff(b + [f]) && !IsOneChar(b + [f])
    ensures Decode(b + [f] + rest) == [0xfffd] + Decode(rest)
  {
    var ds := CutOffHasPath(b);
    var n := Step(ds[|b|], f);
    StepsOff(b, ds, f);
    DecodeAlong(b, ds, [f] + rest, 0);
    assert b[0..] + ([f] + rest) == b + [f] + rest && ([f] + rest)[1..] == rest;
  }

  lemma StepsOff(b: seq<bv8>, ds: seq<Dfa>, f: bv8)
    requires IsPath(b, ds) && !IsCutOff(b + [f]) && !IsOneChar(b + [f])
    ensures Step(ds[|b|], f).state == REJECT
  {
    var n := Step(ds[|b|], f);
    if n.state == START {
      PathToStart(b, ds, f);
    } else if n.state != REJECT {
      PathIsCutOff(b + [f], ds + [n]);
    }
  }

  /** Every input begins with a character, or with one that breaks off at a wrong byte, or is
      cut off as a whole: that says what the decoder does with all of them. */
  lemma EveryInputBegins(b: seq<bv8>) returns (k: nat)
    requires b != []
    ensures k < |b| && IsCutOff(b[..k])
    ensures IsOneChar(b[..k + 1]) || !IsCutOff(b[..k + 1]) || k + 1 == |b|
  {
    k := 0;
    assert EncodeChar(0) == [0];
    assert b[..0] < EncodeChar(0);
    while k + 1 < |b| && IsCutOff(b[..k + 1])
      invariant k < |b| && IsCutOff(b[..k])
    {
      k := k + 1;
    }
  }

  /** The decoder on any input, in these terms. */
  lemma DecodeReadsFirst(b: seq<bv8>) returns (k: nat)
    requires b != []
    ensures k < |b| && IsCutOff(b[..k])
    ensures if IsOneChar(b[..k + 1]) then
              forall u :: IsScalar(u) && EncodeChar(u) == b[..k + 1] ==> Decode(b) == [u] + Decode(b[k + 1..])
            else if IsCutOff(b[..k + 1]) then k + 1 == |b| && Decode(b) == [0xfffd]
            else Decode(b) == [0xfffd] + Decode(b[k + 1..])
  {
    k := EveryInputBegins(b);
    assert b[..k + 1] == b[..k] + [b[k]] && b == b[..k + 1] + b[k + 1..];
    if IsOneChar(b[..k + 1]) {
      forall u | IsScalar(u) && EncodeChar(u) == b[..k + 1]
        ensures Decode(b) == [u] + Decode(b[k + 1..])
      {
        DecodeChar(u, b[k + 1..]);
      }
    } else if IsCutOff(b[..k + 1]) {
      assert b[..k + 1] == b;
      CutOffIsReplaced(b);
    } else {
      BrokenIsReplaced(b[..k], b[k], b[k + 1..]);
    }
  }

  // ---------- the code ----------

  method ValidUtf8(utf8String: seq<bv8>) returns (valid: bool)
    ensures valid <==> IsEncoding(utf8String)
  {
    AcceptsIffEncoding(utf8String);
    var iter := 0;
    var d := INITIAL;
    while iter < |utf8String|
      invariant 0 <= iter <= |utf8String|
      invariant d.state < REJECT
      invariant Accepts(utf8String, INITIAL) <==> Accepts(utf8String[iter..], d)
    {
      var n := ConsumeUtf8Fragment(d, utf8String[iter]);
      assert utf8String[iter..][1..] == utf8String[iter + 1..];
      iter := iter + 1;
      if n.state == REJECT {
        return false;
      }
      d := n;
    }
    return d.state == START;
  }

  lemma DecodeStep(result: seq<bv32>, b: seq<bv8>, i: nat, d: Dfa, n: Dfa)
    requires i < |b| && Reads(d, b[i], n)
    ensures result + DecodeFrom(b[i..], d) ==
            if n.state == START then result + [n.codepoint] + DecodeFrom(b[i + 1..], INITIAL)
            else if n.state == REJECT then result + [REPLACEMENT] + DecodeFrom(b[i + 1..], INITIAL)
            else result + DecodeFrom(b[i + 1..], n)
  {
    assert b[i..][1..] == b[i + 1..];
    assert DecodeFrom(b[i..], d) ==
           if n.state == START then [n.codepoint] + DecodeFrom(b[i + 1..], INITIAL)
           else if n.state == REJECT then [REPLACEMENT] + DecodeFrom(b[i + 1..], INITIAL)
           else DecodeFrom(b[i + 1..], n);
  }

  method FromUtf8To32(utf8String: seq<bv8>) returns (result: seq<bv32>)
    ensures result == Decode(utf8String)
    ensures AllScalar(result) && |result| <= |utf8String|
    ensures Encode(result) == utf8String <==> IsEncoding(utf8String)
  {
    DecodeIsProjection(utf8String);
    BytesRoundTripIffValid(utf8String);
    AcceptsIffEncoding(utf8String);
    result := [];
    var iter := 0;
    var d := INITIAL;
    while iter < |utf8String|
      invariant 0 <= iter <= |utf8String|
      invariant d.state < REJECT
      invariant result + DecodeFrom(utf8String[iter..], d) == Decode(utf8String)
    {
      var n := ConsumeUtf8Fragment(d, utf8String[iter]);
      DecodeStep(result, utf8String, iter, d, n);
      d := n;
      iter := iter + 1;
      if d.state == START {
        result := result + [d.codepoint];
        d := Dfa(d.state, 0);
      } else if d.state == REJECT {
        result := result + [REPLACEMENT];
        d := INITIAL;
      }
    }
    if d.state != START {
      result := result + [REPLACEMENT];
    }
  }

  lemma {:induction false} EncodeSnoc(s: seq<bv32>, u: bv32)
    ensures Encode(s + [u]) == Encode(s) + EncodeChar(u)
  {
    if s == [] {
      assert s + [u] == [u];
    } else {
      assert (s + [u])[1..] == s[1..] + [u];
      EncodeSnoc(s[1..], u);
    }
  }

  /** Behind a string that does not end in a cut-off character, one code point more is read. */
  lemma AppendedCharIsDecoded(str: seq<bv8>, u: bv32)
    requires EndOf(str, INITIAL).state == START
    ensures Decode(str + EncodeChar(u)) == Decode(str) + [if IsScalar(u) then u else REPLACEMENT]
  {
    PrefixIsIndependentIff(str);
    AppendedCharIsRead(u, []);
    assert EncodeChar(u) + [] == EncodeChar(u) && Decode([]) == [];
  }

  /** Appends the encoding of one code point to any string. */
  method AppendUtf8(str: seq<bv8>, unicode: bv32) returns (r: seq<bv8>)
    ensures r == str + EncodeChar(unicode)
    ensures EndOf(str, INITIAL).state == START ==>
              Decode(r) == Decode(str) + [if IsScalar(unicode) then unicode else REPLACEMENT]
    decreases !IsScalar(unicode)
  {
    if EndOf(str, INITIAL).state == START {
      AppendedCharIsDecoded(str, unicode);
    }
    if unicode <= 0x7f {
      r := str + [unicode as bv8];
    } else if unicode >= 0x80 && unicode <= 0x7ff {
      r := str + [((unicode >> 6) + 192) as bv8,
                  ((unicode & 0x3f) + 128) as bv8];
    } else if (unicode >= 0x800 && unicode <= 0xd7ff) || (unicode >= 0xe000 && unicode <= 0xffff) {
      r := str + [((unicode >> 12) + 224) as bv8,
                  (((unicode & 0xfff) >> 6) + 128) as bv8,
                  ((unicode & 0x3f) + 128) as bv8];
    } else if unicode >= 0x10000 && unicode <= 0x10ffff {
      r := str + [((unicode >> 18) + 240) as bv8,
                  (((unicode & 0x3ffff) >> 12) + 128) as bv8,
                  (((unicode & 0xfff) >> 6) + 128) as bv8,
                  ((unicode & 0x3f) + 128) as bv8];
    } else {
      r := AppendUtf8(str, REPLACEMENT);
    }
  }

  method ToUtf8From32(unicodeString: seq<bv32>) returns (result: seq<bv8>)
    ensures result == Encode(unicodeString)
    ensures IsEncoding(result)
    ensures Decode(result) == Sanitized(unicodeString)
  {
    result := [];
    for i := 0 to |unicodeString|
      invariant result == Encode(unicodeString[..i])
    {
      EncodeSnoc(unicodeString[..i], unicodeString[i]);
      result := AppendUtf8(result, unicodeString[i]);
      assert unicodeString[..i + 1] == unicodeString[..i] + [unicodeString[i]];
    }
    assert unicodeString[..|unicodeString|] == unicodeString;
    EncodeIsAlwaysValid(unicodeString);
    AcceptsIffEncoding(result);
  }
}
