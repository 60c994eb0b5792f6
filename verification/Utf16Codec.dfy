/**
  The UTF-16 half of the codec: the decoder from UTF-8 to 16-bit strings and the encoder
  back, proved against sections 2.1 and 2.2 of RFC 2781.
  */
module Utf16Codec {
  import opened Utf8Codec

  // ---------- characters in UTF-16 ----------

  /** One code unit, a surrogate pair, or the place of a surrogate that starts no pair. */
  datatype Char16 = One(unit: bv16) | Two(high: bv16, low: bv16) | Lone

  predicate IsSurrogate(c: bv16) {
    0xd800 <= c <= 0xdfff
  }

  predicate IsHigh(c: bv16) {
    0xd800 <= c <= 0xdbff
  }

  predicate IsLow(c: bv16) {
    0xdc00 <= c <= 0xdfff
  }

  predicate IsChar(ch: Char16) {
    match ch
    case One(c) => !IsSurrogate(c)
    case Two(high, low) => IsHigh(high) && IsLow(low)
    case Lone => false
  }

  predicate AllChars(chs: seq<Char16>) {
    forall i :: 0 <= i < |chs| ==> IsChar(chs[i])
  }

  function High(u: bv32): bv16
    requires 0x10000 <= u <= 0x10ffff
  {
    (((u - 0x10000) >> 10) | 0xd800) as bv16
  }

  function Low(u: bv32): bv16
    requires 0x10000 <= u <= 0x10ffff
  {
    ((u & 0x3ff) | 0xdc00) as bv16
  }

  function Pair(high: bv16, low: bv16): bv32 {
    ((((high & 0x3ff) as bv32) << 10) | ((low & 0x3ff) as bv32)) + 0x10000
  }

  /** Section 2.1 of RFC 2781: a scalar value as one or two code units. */
  function Split(u: bv32): Char16
    requires IsScalar(u)
  {
    if u <= 0xffff then One(u as bv16) else Two(High(u), Low(u))
  }

  /** Section 2.2 of RFC 2781: the scalar value of a character. */
  function Value(ch: Char16): bv32 {
    match ch
    case One(c) => c as bv32
    case Two(high, low) => Pair(high, low)
    case Lone => REPLACEMENT
  }

  lemma SplitIsChar(u: bv32)
    requires IsScalar(u)
    ensures IsChar(Split(u))
  {
  }

  lemma PairOfHalves(u: bv32)
    requires 0x10000 <= u <= 0x10ffff
    ensures Pair(High(u), Low(u)) == u
  {
  }

  lemma HalvesOfPair(high: bv16, low: bv16)
    requires IsHigh(high) && IsLow(low)
    ensures 0x10000 <= Pair(high, low) <= 0x10ffff
    ensures High(Pair(high, low)) == high && Low(Pair(high, low)) == low
  {
  }

  lemma ValueOfSplit(u: bv32)
    requires IsScalar(u)
    ensures Value(Split(u)) == u
  {
    if u > 0xffff {
      PairOfHalves(u);
    }
  }

  lemma ValueIsScalar(ch: Char16)
    requires ch == Lone || IsChar(ch)
    ensures IsScalar(Value(ch))
  {
  }

  lemma SplitOfUnit(c: bv16)
    requires !IsSurrogate(c)
    ensures IsScalar(c as bv32) && Split(c as bv32) == One(c)
  {
  }

  lemma SplitOfPair(high: bv16, low: bv16)
    requires IsHigh(high) && IsLow(low)
    ensures IsScalar(Pair(high, low)) && Split(Pair(high, low)) == Two(high, low)
  {
    HalvesOfPair(high, low);
  }

  // ---------- strings of code units ----------

  function Units(ch: Char16): seq<bv16> {
    match ch
    case One(c) => [c]
    case Two(high, low) => [high, low]
    case Lone => []
  }

  function Flatten(chs: seq<Char16>): seq<bv16> {
    if chs == [] then [] else Units(chs[0]) + Flatten(chs[1..])
  }

  /** How the encoder reads a 16-bit string: a surrogate that starts no pair is lone and
      takes the code unit after it along. */
  function Parse(w: seq<bv16>): seq<Char16> {
    if w == [] then []
    else if !IsSurrogate(w[0]) then [One(w[0])] + Parse(w[1..])
    else if |w| == 1 then [Lone]
    else if IsHigh(w[0]) && IsLow(w[1]) then [Two(w[0], w[1])] + Parse(w[2..])
    else [Lone] + Parse(w[2..])
  }

  /** Every surrogate is half of a high-low pair. */
  predicate WellFormed(w: seq<bv16>) {
    if w == [] then true
    else if !IsSurrogate(w[0]) then WellFormed(w[1..])
    else |w| >= 2 && IsHigh(w[0]) && IsLow(w[1]) && WellFormed(w[2..])
  }

  lemma CharThen(ch: Char16, rest: seq<bv16>)
    requires IsChar(ch)
    ensures Parse(Units(ch) + rest) == [ch] + Parse(rest)
    ensures WellFormed(Units(ch) + rest) == WellFormed(rest)
  {
    var w := Units(ch) + rest;
    assert w[|Units(ch)|..] == rest;
  }

  lemma {:induction false} ParseFlatten(chs: seq<Char16>)
    requires AllChars(chs)
    ensures Parse(Flatten(chs)) == chs && WellFormed(Flatten(chs))
  {
    if chs != [] {
      ParseFlatten(chs[1..]);
      CharThen(chs[0], Flatten(chs[1..]));
    }
  }

  lemma OneParsed(w: seq<bv16>)
    requires w != [] && !IsSurrogate(w[0])
    ensures Parse(w) == [One(w[0])] + Parse(w[1..]) && WellFormed(w) == WellFormed(w[1..])
  {
  }

  lemma TwoParsed(w: seq<bv16>)
    requires |w| >= 2 && IsHigh(w[0]) && IsLow(w[1])
    ensures Parse(w) == [Two(w[0], w[1])] + Parse(w[2..]) && WellFormed(w) == WellFormed(w[2..])
  {
  }

  lemma FlattenCons(ch: Char16, chs: seq<Char16>)
    requires IsChar(ch) && AllChars(chs)
    ensures AllChars([ch] + chs) && Flatten([ch] + chs) == Units(ch) + Flatten(chs)
  {
    assert ([ch] + chs)[1..] == chs;
  }

  lemma {:induction false} FlattenParse(w: seq<bv16>)
    requires WellFormed(w)
    ensures AllChars(Parse(w)) && Flatten(Parse(w)) == w
    decreases |w|
  {
    if w != [] {
      if IsSurrogate(w[0]) {
        TwoParsed(w);
        FlattenParse(w[2..]);
        FlattenCons(Two(w[0], w[1]), Parse(w[2..]));
      } else {
        OneParsed(w);
        FlattenParse(w[1..]);
        FlattenCons(One(w[0]), Parse(w[1..]));
      }
    }
  }

  lemma {:induction false} ParseGivesChars(w: seq<bv16>)
    ensures forall i :: 0 <= i < |Parse(w)| ==> Parse(w)[i] == Lone || IsChar(Parse(w)[i])
    decreases |w|
  {
    if w != [] && (!IsSurrogate(w[0]) || |w| > 1) {
      var n := if IsSurrogate(w[0]) then 2 else 1;
      ParseGivesChars(w[n..]);
      assert Parse(w)[1..] == Parse(w[n..]);
    }
  }

  lemma {:induction false} FlattenSnoc(chs: seq<Char16>, ch: Char16)
    ensures Flatten(chs + [ch]) == Flatten(chs) + Units(ch)
  {
    if chs == [] {
      assert chs + [ch] == [ch];
    } else {
      assert (chs + [ch])[1..] == chs[1..] + [ch];
      FlattenSnoc(chs[1..], ch);
    }
  }

  // ---------- scalar values and code units ----------

  function Splits(s: seq<bv32>): (chs: seq<Char16>)
    requires AllScalar(s)
    ensures |chs| == |s| && forall i :: 0 <= i < |s| ==> chs[i] == Split(s[i])
  {
    seq(|s|, i requires 0 <= i < |s| => Split(s[i]))
  }

  function Values(chs: seq<Char16>): (s: seq<bv32>)
    ensures |s| == |chs| && forall i :: 0 <= i < |s| ==> s[i] == Value(chs[i])
  {
    seq(|chs|, i requires 0 <= i < |chs| => Value(chs[i]))
  }

  function EncodeUnits(s: seq<bv32>): seq<bv16>
    requires AllScalar(s)
  {
    Flatten(Splits(s))
  }

  function CodePoints(w: seq<bv16>): seq<bv32> {
    Values(Parse(w))
  }

  lemma EncodeUnitsCons(s: seq<bv32>)
    requires AllScalar(s) && s != []
    ensures EncodeUnits(s) == Units(Split(s[0])) + EncodeUnits(s[1..])
    ensures |EncodeUnits(s)| == (if s[0] <= 0xffff then 1 else 2) + |EncodeUnits(s[1..])|
  {
    assert Splits(s)[1..] == Splits(s[1..]);
    assert Splits(s)[0] == Split(s[0]);
  }

  lemma EncodeUnitsSnoc(s: seq<bv32>, u: bv32)
    requires AllScalar(s) && IsScalar(u)
    ensures AllScalar(s + [u]) && EncodeUnits(s + [u]) == EncodeUnits(s) + Units(Split(u))
  {
    assert Splits(s + [u]) == Splits(s) + [Split(u)];
    FlattenSnoc(Splits(s), Split(u));
  }

  lemma CodePointsAreScalar(w: seq<bv16>)
    ensures AllScalar(CodePoints(w))
  {
    ParseGivesChars(w);
    forall i | 0 <= i < |Parse(w)|
      ensures IsScalar(CodePoints(w)[i])
    {
      ValueIsScalar(Parse(w)[i]);
    }
  }

  lemma CodePointsOfUnits(s: seq<bv32>)
    requires AllScalar(s)
    ensures CodePoints(EncodeUnits(s)) == s && WellFormed(EncodeUnits(s))
  {
    forall i | 0 <= i < |s|
      ensures IsChar(Splits(s)[i]) && Value(Splits(s)[i]) == s[i]
    {
      SplitIsChar(s[i]);
      ValueOfSplit(s[i]);
    }
    ParseFlatten(Splits(s));
  }

  lemma UnitsOfCodePoints(w: seq<bv16>)
    requires WellFormed(w)
    ensures AllScalar(CodePoints(w)) && EncodeUnits(CodePoints(w)) == w
  {
    CodePointsAreScalar(w);
    FlattenParse(w);
    forall i | 0 <= i < |Parse(w)|
      ensures Splits(CodePoints(w))[i] == Parse(w)[i]
    {
      match Parse(w)[i]
      case One(c) => SplitOfUnit(c);
      case Two(high, low) => SplitOfPair(high, low);
    }
    assert Splits(CodePoints(w)) == Parse(w);
  }

  // ---------- the conversions ----------

  /** What the 16-bit decoder returns. */
  ghost function FromBytes(b: seq<bv8>): (w: seq<bv16>) {
    DecodeIsProjection(b);
    EncodeUnits(Decode(b))
  }

  /** What the 16-bit encoder returns. */
  function ToBytes(w: seq<bv16>): seq<bv8> {
    Encode(CodePoints(w))
  }

  lemma {:induction false} UnitsNoLongerThanBytes(b: seq<bv8>, d: Dfa)
    requires Collected(d)
    ensures AllScalar(DecodeFrom(b, d))
    ensures |EncodeUnits(DecodeFrom(b, d))| <= |b| + (if d.state == START then 0 else 1)
  {
    DecodeFromIsScalar(b, d);
    var s := DecodeFrom(b, d);
    if b == [] {
      if s != [] {
        EncodeUnitsCons(s);
      }
    } else {
      var n := Step(d, b[0]);
      StepKeepsCollected(d, b[0]);
      if n.state == START || n.state == REJECT {
        assert d.state == START ==> s[0] <= 0xffff;
        assert s[1..] == DecodeFrom(b[1..], INITIAL);
        EncodeUnitsCons(s);
        UnitsNoLongerThanBytes(b[1..], INITIAL);
      } else {
        UnitsNoLongerThanBytes(b[1..], n);
      }
    }
  }

  /** On every byte string, malformed ones included, the 16-bit output is well-formed,
      spells what the 32-bit decoder returns and is no longer than the input. */
  lemma FromBytesIsWellFormed(b: seq<bv8>)
    ensures WellFormed(FromBytes(b)) && CodePoints(FromBytes(b)) == Decode(b)
    ensures |FromBytes(b)| <= |b|
  {
    DecodeIsProjection(b);
    CodePointsOfUnits(Decode(b));
    UnitsNoLongerThanBytes(b, INITIAL);
  }

  /** 16-bit strings survive the trip through UTF-8 exactly when they are well-formed. */
  lemma UnitsRoundTripIffWellFormed(w: seq<bv16>)
    ensures FromBytes(ToBytes(w)) == w <==> WellFormed(w)
  {
    CodePointsAreScalar(w);
    DecodeEncode(CodePoints(w));
    if WellFormed(w) {
      UnitsOfCodePoints(w);
    } else {
      CodePointsOfUnits(CodePoints(w));
    }
  }

  /** Byte strings survive the trip through UTF-16 exactly when they are well-formed. */
  lemma BytesRoundTripThroughUnits(b: seq<bv8>)
    ensures ToBytes(FromBytes(b)) == b <==> IsEncoding(b)
  {
    FromBytesIsWellFormed(b);
    BytesRoundTripIffValid(b);
    AcceptsIffEncoding(b);
  }

  /** The encoder's output is well-formed UTF-8 on every input. */
  lemma ToBytesIsValid(w: seq<bv16>)
    ensures IsEncoding(ToBytes(w))
  {
    CodePointsAreScalar(w);
  }

  /** Read from the front, `w` ends in a surrogate that is left without a partner. */
  predicate EndsLone(w: seq<bv16>) {
    if w == [] then false
    else if !IsSurrogate(w[0]) then EndsLone(w[1..])
    else |w| == 1 || EndsLone(w[2..])
  }

  lemma {:induction false} ParseSplits(a: seq<bv16>, b: seq<bv16>)
    requires !EndsLone(a)
    ensures Parse(a + b) == Parse(a) + Parse(b)
    decreases |a|
  {
    if a == [] {
      assert a + b == b;
    } else if !IsSurrogate(a[0]) {
      assert (a + b)[1..] == a[1..] + b;
      ParseSplits(a[1..], b);
    } else {
      assert (a + b)[2..] == a[2..] + b;
      ParseSplits(a[2..], b);
    }
  }

  /** How any 16-bit string is read: units that are no surrogates and high-low pairs as what
      they spell, and any other surrogate, with the unit behind it, as U+FFFD. */
  lemma UnitsAreRead(c: bv16, x: bv16, rest: seq<bv16>)
    ensures !(0xd800 <= c <= 0xdfff) ==> CodePoints([c] + rest) == [c as bv32] + CodePoints(rest)
    ensures 0xd800 <= c <= 0xdfff ==> CodePoints([c]) == [0xfffd]
    ensures 0xd800 <= c <= 0xdfff ==>
              CodePoints([c, x] + rest) ==
              [if c <= 0xdbff && 0xdc00 <= x <= 0xdfff then Pair(c, x) else 0xfffd] + CodePoints(rest)
  {
    if !IsSurrogate(c) {
      ReadOne(One(c), [c] + rest, rest);
    } else {
      var w := [c, x] + rest;
      assert w[2..] == rest;
      ReadOne(if IsHigh(c) && IsLow(x) then Two(c, x) else Lone, w, rest);
    }
  }

  lemma ReadOne(ch: Char16, w: seq<bv16>, rest: seq<bv16>)
    requires w != [] && (w[1..] == rest || (|w| > 1 && w[2..] == rest)) && Parse(w) == [ch] + Parse(rest)
    ensures CodePoints(w) == [Value(ch)] + CodePoints(rest)
  {
  }

  /** A letter behind such a surrogate is swallowed. */
  lemma {:induction false} UnitIsSwallowed(a: seq<bv16>)
    requires EndsLone(a)
    ensures |Parse(a + [0x41])| == |Parse(a)|
    decreases |a|
  {
    var w: seq<bv16> := a + [0x41];
    if !IsSurrogate(a[0]) {
      assert w[1..] == a[1..] + [0x41];
      UnitIsSwallowed(a[1..]);
    } else if |a| == 1 {
      assert w[2..] == [];
    } else {
      assert w[2..] == a[2..] + [0x41];
      UnitIsSwallowed(a[2..]);
    }
  }

  /** A lone surrogate takes the unit behind it along. So what follows `a` is read on its own,
      if and only if `a` does not end in one. */
  lemma PrefixUnitsAreIndependentIff(a: seq<bv16>)
    ensures (forall b :: CodePoints(a + b) == CodePoints(a) + CodePoints(b)) <==> !EndsLone(a)
  {
    if !EndsLone(a) {
      forall b
        ensures CodePoints(a + b) == CodePoints(a) + CodePoints(b)
      {
        ParseSplits(a, b);
      }
    } else {
      var b: seq<bv16> := [0x41];
      UnitIsSwallowed(a);
      assert Parse(b) == [One(0x41)];
      assert |CodePoints(a + b)| != |CodePoints(a)| + |CodePoints(b)|;
    }
  }

  // ---------- the code ----------

  lemma CodedHigh(u: bv32)
    requires 0x10000 <= u <= 0x10ffff
    ensures (((u - 0x10000) >> 10) + 0xd800) as bv16 == High(u)
  {
  }

  lemma CodedLow(u: bv32)
    requires 0x10000 <= u <= 0x10ffff
    ensures (((u - 0x10000) & 0x3ff) + 0xdc00) as bv16 == Low(u)
  {
  }

  /** The two code units the decoder writes for a code point beyond the first plane. */
  method SurrogatePair(unicode: bv32) returns (high: bv16, low: bv16)
    requires 0x10000 <= unicode <= 0x10ffff
    ensures high == High(unicode) && low == Low(unicode)
  {
    CodedHigh(unicode);
    CodedLow(unicode);
    var codepoint := unicode - 0x10000;
    high := ((codepoint >> 10) + 0xd800) as bv16;
    low := ((codepoint & 0x3ff) + 0xdc00) as bv16;
  }

  /** Appends one code point to a 16-bit string that spells `s` so far. */
  method AppendUtf16(str: seq<bv16>, unicode: bv32, ghost s: seq<bv32>) returns (r: seq<bv16>)
    requires AllScalar(s) && IsScalar(unicode) && str == EncodeUnits(s)
    ensures AllScalar(s + [unicode]) && r == EncodeUnits(s + [unicode])
  {
    EncodeUnitsSnoc(s, unicode);
    if unicode <= 0xffff {
      r := str + [unicode as bv16];
    } else {
      var high, low := SurrogatePair(unicode);
      r := str + [high] + [low];
    }
  }

  method FromUtf8To16(utf8String: seq<bv8>) returns (result: seq<bv16>)
    ensures result == FromBytes(utf8String)
    ensures WellFormed(result) && CodePoints(result) == Decode(utf8String) && |result| <= |utf8String|
  {
    FromBytesIsWellFormed(utf8String);
    ghost var s: seq<bv32> := [];
    result := [];
    var iter := 0;
    var d := INITIAL;
    while iter < |utf8String|
      invariant 0 <= iter <= |utf8String|
      invariant d.state < REJECT && Collected(d)
      invariant s + DecodeFrom(utf8String[iter..], d) == Decode(utf8String)
      invariant AllScalar(s) && result == EncodeUnits(s)
    {
      var n := ConsumeUtf8Fragment(d, utf8String[iter]);
      DecodeStep(s, utf8String, iter, d, n);
      StepKeepsCollected(d, utf8String[iter]);
      d := n;
      iter := iter + 1;
      if d.state == START {
        result := AppendUtf16(result, d.codepoint, s);
        s := s + [d.codepoint];
        d := Dfa(d.state, 0);
      } else if d.state == REJECT {
        result := AppendUtf16(result, REPLACEMENT, s);
        s := s + [REPLACEMENT];
        d := INITIAL;
      }
    }
    if d.state != START {
      result := AppendUtf16(result, REPLACEMENT, s);
      s := s + [REPLACEMENT];
    }
    assert s == Decode(utf8String);
  }

  lemma CodedValue(high: bv16, low: bv16)
    requires IsHigh(high) && IsLow(low)
    ensures ((high as bv32) << 10) + (low as bv32) - 0x35fdc00 == Value(Two(high, low))
  {
  }

  /** The surrogate tests of the code, and the code point it makes of a pair. */
  method Classify(c: bv16, next: bv16) returns (surrogate: bool, pair: bool, codepoint: bv32)
    ensures surrogate <==> IsSurrogate(c)
    ensures pair <==> IsHigh(c) && IsLow(next)
    ensures pair ==> codepoint == Value(Two(c, next))
  {
    var w, v := c as bv32, next as bv32;
    surrogate := w - 0xd800 < 0xdfff - 0xd800 + 1;
    pair := w & 0xfffffc00 == 0xd800 && v & 0xfffffc00 == 0xdc00;
    codepoint := (w << 10) + v - 0x35fdc00;
    if pair {
      CodedValue(c, next);
    }
  }

  /** The character the encoder reads at `i`. */
  ghost function CharAt(w: seq<bv16>, i: nat): Char16
    requires i < |w|
  {
    if !IsSurrogate(w[i]) then One(w[i])
    else if i + 1 < |w| && IsHigh(w[i]) && IsLow(w[i + 1]) then Two(w[i], w[i + 1])
    else Lone
  }

  /** Where it goes on reading. */
  ghost function NextAt(w: seq<bv16>, i: nat): (n: nat)
    requires i < |w|
    ensures i < n <= |w|
  {
    if IsSurrogate(w[i]) && i + 1 < |w| then i + 2 else i + 1
  }

  lemma ParseSuffix(chs: seq<Char16>, w: seq<bv16>, i: nat)
    requires i < |w|
    ensures chs + Parse(w[i..]) == chs + [CharAt(w, i)] + Parse(w[NextAt(w, i)..])
    ensures Values(chs + [CharAt(w, i)]) == Values(chs) + [Value(CharAt(w, i))]
  {
    var n := NextAt(w, i);
    assert w[i..][n - i..] == w[n..];
    assert Parse(w[i..]) == [CharAt(w, i)] + Parse(w[n..]);
  }

  /** The surrogate loop: `iter` is advanced a second time inside the body, yet never
      runs past the end. */
  method ToUtf8From16(unicodeString: seq<bv16>) returns (result: seq<bv8>)
    ensures result == ToBytes(unicodeString) && IsEncoding(result)
    ensures FromBytes(result) == unicodeString <==> WellFormed(unicodeString)
  {
    ToBytesIsValid(unicodeString);
    UnitsRoundTripIffWellFormed(unicodeString);
    ghost var chs: seq<Char16> := [];
    result := [];
    var iter := 0;
    while iter != |unicodeString|
      invariant 0 <= iter <= |unicodeString|
      invariant chs + Parse(unicodeString[iter..]) == Parse(unicodeString)
      invariant result == Encode(Values(chs))
      decreases |unicodeString| - iter
    {
      ghost var ch, n := CharAt(unicodeString, iter), NextAt(unicodeString, iter);
      ParseSuffix(chs, unicodeString, iter);
      EncodeSnoc(Values(chs), Value(ch));
      var c := unicodeString[iter];
      var next := if iter + 1 != |unicodeString| then unicodeString[iter + 1] else 0;
      var surrogate, pair, codepoint := Classify(c, next);
      if surrogate {
        iter := iter + 1;
        if iter != |unicodeString| && pair {
          result := AppendUtf8(result, codepoint);
        } else {
          result := AppendUtf8(result, 0xfffd);
          if iter == |unicodeString| {
            chs := chs + [ch];
            break;
          }
        }
      } else {
        result := AppendUtf8(result, c as bv32);
      }
      iter := iter + 1;
      assert iter == n;
      chs := chs + [ch];
    }
    assert chs == Parse(unicodeString);
  }
}
