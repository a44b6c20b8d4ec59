/** A writer of DEFLATE streams after the text of RFC 1951, and what reading its streams gives back. */
module Deflate {
  import opened Options
  import opened BitReader
  import opened Huffman
  import opened Inflate

  type Text = seq<Bit>

  /** w stands at position k. */
  predicate At(s: Stream, k: nat, w: Text) { forall i :: 0 <= i < |w| ==> s(k + i) == w[i] }

  lemma AtParts(s: Stream, k: nat, v: Text, w: Text)
    requires At(s, k, v + w)
    ensures At(s, k, v) && At(s, k + |v|, w)
  {
    forall i | 0 <= i < |v| ensures s(k + i) == v[i] {
      assert (v + w)[i] == v[i];
    }
    forall i | 0 <= i < |w| ensures s(k + |v| + i) == w[i] {
      assert (v + w)[|v| + i] == w[i] && k + (|v| + i) == k + |v| + i;
    }
  }

  // ----- numbers and codewords (section 3.1.1) -----

  /** n bits of a number, the least significant first. */
  function Low(v: nat, n: nat): (w: Text)
    ensures |w| == n
  {
    if n == 0 then [] else [v % 2] + Low(v / 2, n - 1)
  }

  /** n bits of a codeword, the most significant first. */
  function High(v: nat, n: nat): (w: Text)
    ensures |w| == n
  {
    if n == 0 then [] else High(v / 2, n - 1) + [v % 2]
  }

  lemma {:induction false} LowRead(s: Stream, k: nat, v: nat, n: nat)
    requires v < Pow2(n) && At(s, k, Low(v, n))
    ensures BitsVal(s, k, n) == v
    decreases n
  {
    if n > 0 {
      AtParts(s, k, [v % 2], Low(v / 2, n - 1));
      LowRead(s, k + 1, v / 2, n - 1);
      assert s(k + 0) == [v % 2][0];
    }
  }

  lemma {:induction false} HighRead(s: Stream, k: nat, v: nat, n: nat)
    requires v < Pow2(n) && At(s, k, High(v, n))
    ensures Prefix(s, k, n) == v
    decreases n
  {
    if n > 0 {
      AtParts(s, k, High(v / 2, n - 1), [v % 2]);
      HighRead(s, k, v / 2, n - 1);
      assert s(k + (n - 1) + 0) == [v % 2][0];
    }
  }

  // ----- codes: the canonical ones of section 3.2.2 and the fixed one of section 3.2.6 -----

  datatype Code = FixedLiteral | FixedDistance | Canonical(lens: seq<nat>)

  ghost predicate Has(c: Code, t: nat) {
    match c
    case FixedLiteral => t < 288
    case FixedDistance => t < 30
    case Canonical(lens) => Huffman.Coded(lens, t) && Codeword(lens, t) < Pow2(lens[t])
  }

  function Spelling(c: Code, t: nat): Text {
    match c
    case FixedLiteral =>
      if t < 144 then High(0x30 + t, 8)
      else if t < 256 then High(0x190 + (t - 144), 9)
      else if t < 280 then High(t - 256, 7)
      else High(0xC0 + (t - 280), 8)
    case FixedDistance => High(t, 5)
    case Canonical(lens) => if Huffman.Coded(lens, t) then High(Codeword(lens, t), lens[t]) else []
  }

  function LensOf(c: Code): seq<nat> {
    match c
    case FixedLiteral => FixedLiterals()
    case FixedDistance => FixedDistances()
    case Canonical(lens) => lens
  }

  /** The codeword of a symbol, whichever bits follow it, is read as that symbol. */
  lemma SpellingRead(s: Stream, c: Code, k: nat, t: nat)
    requires Has(c, t) && At(s, k, Spelling(c, t))
    ensures t < |LensOf(c)| && LensOf(c)[t] == |Spelling(c, t)| > 0 && Symbol(s, LensOf(c), k) == Some(t)
  {
    var lens := LensOf(c);
    if c.FixedLiteral? { FixedLiteralCodes(t); }
    if c.FixedDistance? { FixedDistanceCodes(t); }
    hide FixedLiterals;
    hide FixedDistances;
    hide Codeword;
    HighRead(s, k, Codeword(lens, t), lens[t]);
    assert Matches(s, lens, k, t);
    MatchUnique(s, lens, k, t, Symbol(s, lens, k).value);
  }

  lemma {:induction false} AmongAll(lens: seq<nat>, l: nat, m: nat, n: nat)
    requires m <= n <= |lens| && forall i :: m <= i < n ==> lens[i] == l
    ensures Among(lens, l, n) == Among(lens, l, m) + (n - m)
    decreases n
  {
    if m < n { AmongAll(lens, l, m, n - 1); }
  }

  lemma {:induction false} AmongOthers(lens: seq<nat>, l: nat, m: nat, n: nat)
    requires m <= n <= |lens| && forall i :: m <= i < n ==> lens[i] != l
    ensures Among(lens, l, n) == Among(lens, l, m)
    decreases n
  {
    if m < n { AmongOthers(lens, l, m, n - 1); }
  }

  /** How many of the first t literals have codewords of length l. */
  lemma FixedAmong(l: nat, t: nat)
    requires 7 <= l <= 9 && t <= 288
    ensures Among(FixedLiterals(), l, t) == FixedCount(l, t)
  {
    var f := FixedLiterals();
    FixedLengths();
    NoneAmong(f, l);
    hide FixedLiterals;
    hide Among;
    if l == 7 {
      AmongOthers(f, l, 0, if t < 256 then t else 256);
      if t >= 256 { AmongAll(f, l, 256, if t < 280 then t else 280); }
      if t >= 280 { AmongOthers(f, l, 280, t); }
    } else if l == 8 {
      AmongAll(f, l, 0, if t < 144 then t else 144);
      if t >= 144 { AmongOthers(f, l, 144, if t < 280 then t else 280); }
      if t >= 280 { AmongAll(f, l, 280, t); }
    } else {
      AmongOthers(f, l, 0, if t < 144 then t else 144);
      if t >= 144 { AmongAll(f, l, 144, if t < 256 then t else 256); }
      if t >= 256 { AmongOthers(f, l, 256, t); }
    }
  }

  lemma NoneAmong(lens: seq<nat>, l: nat)
    ensures Among(lens, l, 0) == 0
  {
  }

  function FixedCount(l: nat, t: nat): int {
    if l == 7 then (if t < 256 then 0 else if t < 280 then t - 256 else 24)
    else if l == 8 then (if t < 144 then t else if t < 280 then 144 else t - 136)
    else if t < 144 then 0 else if t < 256 then t - 144 else 112
  }

  lemma FixedLengths()
    ensures var f := FixedLiterals();
      |f| == 288 && forall t :: 0 <= t < 288 ==>
        f[t] == if t < 144 then 8 else if t < 256 then 9 else if t < 280 then 7 else 8
  {
  }

  lemma FixedFirstCodes()
    ensures var f := FixedLiterals(); FirstCode(f, 7) == 0 && FirstCode(f, 8) == 0x30 && FirstCode(f, 9) == 0x190
  {
    var f := FixedLiterals();
    FixedLengths();
    hide FixedLiterals;
    hide Among;
    NoShortCode(f, 7);
    FixedAmong(7, 288);
    FixedAmong(8, 288);
    assert FirstCode(f, 8) == 2 * (FirstCode(f, 7) + Count(f, 7));
    assert FirstCode(f, 9) == 2 * (FirstCode(f, 8) + Count(f, 8));
  }

  /** The literal lengths of section 3.2.6 give that section's codewords. */
  lemma FixedLiteralCodes(t: nat)
    requires t < 288
    ensures Huffman.Coded(FixedLiterals(), t) && Codeword(FixedLiterals(), t) < Pow2(FixedLiterals()[t])
    ensures Spelling(FixedLiteral, t) == High(Codeword(FixedLiterals(), t), FixedLiterals()[t])
  {
    hide FixedLiterals;
    hide Among;
    hide FirstCode;
    hide High;
    hide Pow2;
    SmallPowers();
    FixedLengths();
    FixedFirstCodes();
    FixedAmong(FixedLiterals()[t], t);
  }

  lemma FlatCodes(lens: seq<nat>, l: nat, t: nat)
    requires l > 0 && t < |lens| <= Pow2(l) && forall i :: 0 <= i < |lens| ==> lens[i] == l
    ensures Huffman.Coded(lens, t) && Codeword(lens, t) == t < Pow2(lens[t])
  {
    NoShortCode(lens, l);
    AmongAll(lens, l, 0, t);
  }

  lemma FixedDistanceCodes(t: nat)
    requires t < 30
    ensures Huffman.Coded(FixedDistances(), t) && Codeword(FixedDistances(), t) < Pow2(FixedDistances()[t])
    ensures Spelling(FixedDistance, t) == High(Codeword(FixedDistances(), t), FixedDistances()[t])
  {
    SmallPowers();
    hide Pow2;
    FlatCodes(FixedDistances(), 5, t);
  }

  // ----- lengths and distances (section 3.2.5) -----

  /** The number of bits of x after its first one. */
  function Octave(x: nat): nat
    requires x > 0
  {
    if x == 1 then 0 else 1 + Octave(x / 2)
  }

  /** A code's number, the extra bits that follow it, and how many these are. Four codes for each
      number of bits, eight of them without extra bits; 258 has its own. */
  function LengthCode(len: nat): (nat, nat, nat)
    requires 3 <= len <= 258
  {
    var x := len - 3;
    if len == 258 then (28, 0, 0)
    else if x < 8 then (x, 0, 0)
    else
      OctaveRange(x);
      var e := Octave(x) - 2;
      ShiftedParts(x, e);
      (4 * e + Shifted(x, e), x - Shifted(x, e) * Pow2(e), e)
  }

  /** Two codes for each number of bits, four of them without extra bits. */
  function DistanceCode(d: nat): (nat, nat, nat)
    requires 1 <= d <= 32768
  {
    var x := d - 1;
    if x < 4 then (x, 0, 0)
    else
      OctaveRange(x);
      var e := Octave(x) - 1;
      ShiftedParts(x, e);
      (2 * e + Shifted(x, e), x - Shifted(x, e) * Pow2(e), e)
  }

  lemma {:induction false} OctaveBound(x: nat, n: nat)
    requires x > 0
    ensures x < Pow2(n + 1) ==> Octave(x) <= n
    ensures x >= Pow2(n) ==> Octave(x) >= n
    decreases n
  {
    if n > 0 && x > 1 { OctaveBound(x / 2, n - 1); }
  }

  /** What x has above its lowest j bits, and the size of those bits. */
  lemma {:induction false} ShiftedParts(x: nat, j: nat)
    requires x > 0 && j <= Octave(x)
    ensures Shifted(x, j) > 0 && Octave(Shifted(x, j)) == Octave(x) - j
    ensures 0 <= x - Shifted(x, j) * Pow2(j) < Pow2(j)
  {
    if j > 0 {
      ShiftedParts(x, j - 1);
      Halved(Shifted(x, j - 1), Pow2(j - 1));
    }
  }

  lemma Halved(q: nat, p: nat)
    ensures q * p == q / 2 * (2 * p) + (q % 2) * p && (q % 2 == 0 ==> (q % 2) * p == 0)
    ensures q % 2 == 1 ==> (q % 2) * p == p
  {
    assert q * p == (2 * (q / 2) + q % 2) * p;
  }

  lemma SmallOctaves(x: nat)
    requires x > 0
    ensures Octave(x) == 1 ==> 2 <= x < 4
    ensures Octave(x) == 2 ==> 4 <= x < 8
  {
    if x > 1 { assert Octave(x) == 1 + Octave(x / 2); }
    if x > 3 { assert Octave(x / 2) == 1 + Octave(x / 2 / 2); }
    if x > 7 { assert Octave(x / 2 / 2) > 0; }
  }

  lemma ExtraBits(t: nat)
    ensures 4 <= t < 28 ==> LengthExtra(t) == t / 4 - 1
    ensures 2 <= t < 30 ==> DistanceExtra(t) == t / 2 - 1
  {
  }

  lemma TableStarts()
    ensures LengthBase(4) == 7 && DistanceBase(2) == 3 && Pow2(0) == 1
  {
  }

  lemma Doubled(e: nat)
    requires e > 0
    ensures Pow2(e) == 2 * Pow2(e - 1)
  {
  }

  lemma OneMore(q: nat, p: nat)
    requires q > 0
    ensures q * p == (q - 1) * p + p
  {
  }

  lemma {:induction false} LengthEntry(q: nat, e: nat)
    requires 4 <= q < 8 && e < 6
    ensures LengthBase(4 * e + q) == 3 + q * Pow2(e) && LengthExtra(4 * e + q) == e
    decreases e, q
  {
    hide *;
    ExtraBits(4 * e + q);
    if q > 4 {
      LengthEntry(q - 1, e);
      LengthNext(4 * e + q - 1);
      OneMore(q, Pow2(e));
    } else if e > 0 {
      LengthEntry(7, e - 1);
      LengthNext(4 * e + 3);
      Doubled(e);
    } else {
      TableStarts();
    }
  }

  lemma LengthNext(j: nat)
    requires j < 27
    ensures LengthBase(j + 1) == LengthBase(j) + Pow2(LengthExtra(j))
  {
    LengthTable(j);
  }

  lemma {:induction false} DistanceEntry(q: nat, e: nat)
    requires 2 <= q < 4 && e < 14
    ensures DistanceBase(2 * e + q) == 1 + q * Pow2(e) && DistanceExtra(2 * e + q) == e
    decreases e, q
  {
    hide *;
    ExtraBits(2 * e + q);
    if q > 2 {
      DistanceEntry(q - 1, e);
      DistanceTable(2 * e + q - 1);
      OneMore(q, Pow2(e));
    } else if e > 0 {
      DistanceEntry(3, e - 1);
      DistanceTable(2 * e + 1);
      Doubled(e);
    } else {
      TableStarts();
    }
  }

  /** The codes below those with extra bits, and the one for 258. */
  lemma PlainCodes(x: nat)
    ensures x < 8 ==> LengthBase(x) == 3 + x && LengthExtra(x) == 0
    ensures x < 4 ==> DistanceBase(x) == 1 + x && DistanceExtra(x) == 0
    ensures LengthBase(28) == 258 && LengthExtra(28) == 0 && Pow2(0) == 1
  {
  }

  /** Base and extra bits of a length's code give the length. */
  lemma LengthCodes(len: nat)
    requires 3 <= len <= 258
    ensures var (t, extra, e) := LengthCode(len);
      t < 29 && LengthExtra(t) == e && LengthBase(t) + extra == len && extra < Pow2(e)
  {
    hide LengthBase;
    hide LengthExtra;
    hide Pow2;
    hide Octave;
    hide Shifted;
    var x := len - 3;
    PlainCodes(x);
    if len < 258 && x >= 8 {
      OctaveRange(x);
      var e := Octave(x) - 2;
      ShiftedParts(x, e);
      SmallOctaves(Shifted(x, e));
      LengthEntry(Shifted(x, e), e);
    }
  }

  /** Base and extra bits of a distance's code give the distance. */
  lemma DistanceCodes(d: nat)
    requires 1 <= d <= 32768
    ensures var (u, extra, e) := DistanceCode(d);
      u < 30 && DistanceExtra(u) == e && DistanceBase(u) + extra == d && extra < Pow2(e)
  {
    hide DistanceBase;
    hide DistanceExtra;
    hide Pow2;
    hide Octave;
    hide Shifted;
    var x := d - 1;
    PlainCodes(x);
    if x >= 4 {
      OctaveRange(x);
      var e := Octave(x) - 1;
      ShiftedParts(x, e);
      SmallOctaves(Shifted(x, e));
      DistanceEntry(Shifted(x, e), e);
    }
  }

  lemma OctaveRange(x: nat)
    requires x > 0
    ensures x < 256 ==> Octave(x) <= 7
    ensures x < 32768 ==> Octave(x) <= 14
    ensures x >= 4 ==> Octave(x) >= 2
    ensures x >= 8 ==> Octave(x) >= 3
  {
    SmallPowers();
    assert Pow2(15) == 32768 by { assert Pow2(14) == 2 * Pow2(13); }
    hide Pow2;
    OctaveBound(x, 7);
    OctaveBound(x, 14);
    OctaveBound(x, 2);
    OctaveBound(x, 3);
  }

  // ----- blocks of literals and back-references -----

  datatype Token = Lit(octet: Byte) | Ref(len: nat, d: nat)

  /** The symbols that a token needs have codewords. */
  ghost predicate Writable(lit: Code, dist: Code, tok: Token) {
    match tok
    case Lit(x) => Has(lit, x)
    case Ref(len, d) =>
      && 3 <= len <= 258 && 1 <= d <= 32768
      && Has(lit, 257 + LengthCode(len).0) && Has(dist, DistanceCode(d).0)
  }

  ghost predicate AllWritable(lit: Code, dist: Code, toks: seq<Token>) {
    forall i :: 0 <= i < |toks| ==> Writable(lit, dist, toks[i])
  }

  ghost function TokenText(lit: Code, dist: Code, tok: Token): Text
    requires Writable(lit, dist, tok)
  {
    match tok
    case Lit(x) => Spelling(lit, x)
    case Ref(len, d) =>
      var (t, more, m) := LengthCode(len);
      var (u, extra, n) := DistanceCode(d);
      Spelling(lit, 257 + t) + Low(more, m) + (Spelling(dist, u) + Low(extra, n))
  }

  /** The tokens one after the other and the end-of-block code. */
  ghost function BodyText(lit: Code, dist: Code, toks: seq<Token>): Text
    requires AllWritable(lit, dist, toks)
  {
    if |toks| == 0 then Spelling(lit, 256) else TokenText(lit, dist, toks[0]) + BodyText(lit, dist, toks[1..])
  }

  /** A reference reaches back no further than there is output. */
  predicate Reaches(tok: Token, out: seq<Byte>) { tok.Ref? ==> 1 <= tok.d <= |out| }

  function Added(tok: Token, out: seq<Byte>): seq<Byte>
    requires Reaches(tok, out)
  {
    match tok
    case Lit(x) => out + [x]
    case Ref(len, d) => Copied(out, d, len)
  }

  predicate Reaching(toks: seq<Token>, out: seq<Byte>) {
    |toks| > 0 ==> Reaches(toks[0], out) && Reaching(toks[1..], Added(toks[0], out))
  }

  /** The output after the tokens. */
  function Expanded(toks: seq<Token>, out: seq<Byte>): seq<Byte>
    requires Reaching(toks, out)
  {
    if |toks| == 0 then out else Expanded(toks[1..], Added(toks[0], out))
  }

  function ItemOf(tok: Token, pos: nat): Item {
    match tok
    case Lit(x) => Literal(x, pos)
    case Ref(len, d) => Reference(len, d, pos)
  }

  /** A token is read as what it says, and reading ends where its text does. */
  lemma TokenRead(s: Stream, lit: Code, dist: Code, k: nat, tok: Token)
    requires Writable(lit, dist, tok) && At(s, k, TokenText(lit, dist, tok))
    ensures |TokenText(lit, dist, tok)| > 0
    ensures ItemAt(s, LensOf(lit), LensOf(dist), k) == ItemOf(tok, k + |TokenText(lit, dist, tok)|)
  {
    hide ReferenceAt;
    hide Spelling;
    hide LensOf;
    hide At;
    hide Has;
    hide LengthCode;
    hide DistanceCode;
    match tok
    case Lit(x) => SpellingRead(s, lit, k, x);
    case Ref(len, d) => ReferenceRead(s, lit, dist, k, len, d);
  }

  lemma ReferenceRead(s: Stream, lit: Code, dist: Code, k: nat, len: nat, d: nat)
    requires Writable(lit, dist, Ref(len, d)) && At(s, k, TokenText(lit, dist, Ref(len, d)))
    ensures |TokenText(lit, dist, Ref(len, d))| > 0
    ensures ItemAt(s, LensOf(lit), LensOf(dist), k) == Reference(len, d, k + |TokenText(lit, dist, Ref(len, d))|)
  {
    hide Spelling;
    hide LensOf;
    hide At;
    hide Has;
    hide LengthCode;
    hide DistanceCode;
    hide LengthBase;
    hide LengthExtra;
    hide DistanceBase;
    hide DistanceExtra;
    hide BitsVal;
    hide Low;
    hide Pow2;
    var (t, more, m) := LengthCode(len);
    var (u, extra, n) := DistanceCode(d);
    var (first, second) := (Spelling(lit, 257 + t) + Low(more, m), Spelling(dist, u) + Low(extra, n));
    AtParts(s, k, first, second);
    AtParts(s, k, Spelling(lit, 257 + t), Low(more, m));
    AtParts(s, k + |first|, Spelling(dist, u), Low(extra, n));
    LengthCodes(len);
    DistanceCodes(d);
    SpellingRead(s, lit, k, 257 + t);
    LowRead(s, k + |Spelling(lit, 257 + t)|, more, m);
    SpellingRead(s, dist, k + |first|, u);
    LowRead(s, k + |first| + |Spelling(dist, u)|, extra, n);
  }

  lemma TokenNext(s: Stream, end: nat, lit: seq<nat>, dist: seq<nat>, k: nat, tok: Token, pos: nat, out: seq<Byte>)
    requires ItemAt(s, lit, dist, k) == ItemOf(tok, pos) && Reaches(tok, out) && k < end
    ensures Inflate.Coded(s, end, lit, dist, k, out) == Inflate.Coded(s, end, lit, dist, pos, Added(tok, out))
  {
    hide ItemAt;
  }

  lemma EndNext(s: Stream, end: nat, lit: seq<nat>, dist: seq<nat>, k: nat, out: seq<Byte>)
    requires Symbol(s, lit, k) == Some(256) && 256 < |lit|
    ensures Inflate.Coded(s, end, lit, dist, k, out) == Done(k + lit[256], out)
  {
    hide Symbol;
  }

  lemma BodyParts(lit: Code, dist: Code, toks: seq<Token>, out: seq<Byte>)
    requires AllWritable(lit, dist, toks) && Reaching(toks, out)
    ensures if |toks| == 0 then BodyText(lit, dist, toks) == Spelling(lit, 256) && Expanded(toks, out) == out
      else
        && Writable(lit, dist, toks[0]) && AllWritable(lit, dist, toks[1..])
        && Reaches(toks[0], out) && Reaching(toks[1..], Added(toks[0], out))
        && BodyText(lit, dist, toks) == TokenText(lit, dist, toks[0]) + BodyText(lit, dist, toks[1..])
        && Expanded(toks, out) == Expanded(toks[1..], Added(toks[0], out))
  {
    hide TokenText;
    hide Spelling;
    hide Added;
    hide Writable;
  }

  /** A block's text is read as its tokens' output, up to its end. */
  lemma {:induction false} BodyRead(s: Stream, end: nat, lit: Code, dist: Code, k: nat, toks: seq<Token>,
                                    out: seq<Byte>)
    requires AllWritable(lit, dist, toks) && Has(lit, 256) && Reaching(toks, out)
    requires At(s, k, BodyText(lit, dist, toks)) && k + |BodyText(lit, dist, toks)| <= end
    ensures Inflate.Coded(s, end, LensOf(lit), LensOf(dist), k, out)
         == Done(k + |BodyText(lit, dist, toks)|, Expanded(toks, out))
    decreases |toks|
  {
    hide *;
    BodyParts(lit, dist, toks, out);
    if |toks| == 0 {
      SpellingRead(s, lit, k, 256);
      EndNext(s, end, LensOf(lit), LensOf(dist), k, out);
    } else {
      var w := TokenText(lit, dist, toks[0]);
      AtParts(s, k, w, BodyText(lit, dist, toks[1..]));
      TokenRead(s, lit, dist, k, toks[0]);
      TokenNext(s, end, LensOf(lit), LensOf(dist), k, toks[0], k + |w|, out);
      BodyRead(s, end, lit, dist, k + |w|, toks[1..], Added(toks[0], out));
    }
  }

  // ----- the header of a dynamic block (section 3.2.7) -----

  /** The code length symbols in the order of their fields: the three repeats, zero, and then
      alternately from 8 up and from 7 down. */
  function FieldOf(v: nat): nat
    requires v < 19
  {
    if v >= 16 then v - 16 else if v == 0 then 3 else if v >= 8 then 2 * v - 12 else 19 - 2 * v
  }

  lemma FieldOrder(v: nat, i: nat)
    requires v < 19 && i < 19
    ensures FieldOf(v) < 19 && (ORD[i] == v <==> FieldOf(v) == i)
  {
  }

  /** The symbol whose length is in field i. */
  function InField(i: nat): (v: nat)
    requires i < 19
    ensures v < 19 && FieldOf(v) == i
  {
    if i < 3 then 16 + i else if i == 3 then 0 else if i % 2 == 0 then 6 + i / 2 else 9 - i / 2
  }

  /** The first n fields of three bits. */
  function FieldsText(cl: seq<nat>, n: nat): (w: Text)
    requires |cl| == 19 && n <= 19
    ensures |w| == 3 * n
  {
    if n == 0 then [] else FieldsText(cl, n - 1) + Low(cl[InField(n - 1)], 3)
  }

  lemma {:induction false} FieldsRead(s: Stream, k: nat, cl: seq<nat>, n: nat, v: nat)
    requires |cl| == 19 && n <= 19 && v < 19 && (forall i :: 0 <= i < 19 ==> cl[i] < 8)
    requires At(s, k, FieldsText(cl, n))
    ensures CodeLengthLens(s, k, n)[v] == if FieldOf(v) < n then cl[v] else 0
    decreases n
  {
    hide At;
    hide Low;
    hide BitsVal;
    if n > 0 {
      var v0 := InField(n - 1);
      AtParts(s, k, FieldsText(cl, n - 1), Low(cl[v0], 3));
      FieldsRead(s, k, cl, n - 1, v);
      FieldOrder(v0, n - 1);
      FieldOrder(v, n - 1);
      SmallPowers();
      LowRead(s, k + 3 * (n - 1), cl[v0], 3);
    }
  }

  /** Code lengths one by one and in runs: the last one again, or zeros. */
  datatype Piece = Len(v: nat) | Again(n: nat) | Zeros(n: nat)

  ghost predicate PieceFits(cl: seq<nat>, p: Piece) {
    match p
    case Len(v) => v <= 15 && Has(Canonical(cl), v)
    case Again(n) => 3 <= n <= 6 && Has(Canonical(cl), 16)
    case Zeros(n) => 3 <= n <= 138 && Has(Canonical(cl), if n <= 10 then 17 else 18)
  }

  ghost predicate AllPieces(cl: seq<nat>, ps: seq<Piece>) { forall i :: 0 <= i < |ps| ==> PieceFits(cl, ps[i]) }

  ghost function PieceText(cl: seq<nat>, p: Piece): Text
    requires PieceFits(cl, p)
  {
    match p
    case Len(v) => Spelling(Canonical(cl), v)
    case Again(n) => Spelling(Canonical(cl), 16) + Low(n - 3, 2)
    case Zeros(n) =>
      if n <= 10 then Spelling(Canonical(cl), 17) + Low(n - 3, 3) else Spelling(Canonical(cl), 18) + Low(n - 11, 7)
  }

  ghost function PiecesText(cl: seq<nat>, ps: seq<Piece>): Text
    requires AllPieces(cl, ps)
  {
    if |ps| == 0 then [] else PieceText(cl, ps[0]) + PiecesText(cl, ps[1..])
  }

  /** The lengths that a piece adds to those before it; at the start there is nothing to repeat. */
  function Extended(p: Piece, acc: seq<nat>): seq<nat>
    requires p.Again? ==> |acc| > 0
  {
    match p
    case Len(v) => acc + [v]
    case Again(n) => acc + Constant(n, acc[|acc| - 1])
    case Zeros(n) => acc + Constant(n, 0)
  }

  /** All the lengths that the pieces stand for after those in acc. */
  function Listed(ps: seq<Piece>, acc: seq<nat>): Option<seq<nat>> {
    if |ps| == 0 then Some(acc)
    else if ps[0].Again? && |acc| == 0 then None
    else Listed(ps[1..], Extended(ps[0], acc))
  }

  lemma {:induction false} ListedGrows(ps: seq<Piece>, acc: seq<nat>)
    requires Listed(ps, acc).Some?
    ensures |Listed(ps, acc).value| >= |acc|
    decreases |ps|
  {
    if |ps| > 0 { ListedGrows(ps[1..], Extended(ps[0], acc)); }
  }

  lemma PiecesParts(cl: seq<nat>, ps: seq<Piece>, acc: seq<nat>)
    requires AllPieces(cl, ps)
    requires Listed(ps, acc).Some?
    ensures if |ps| == 0 then PiecesText(cl, ps) == [] && Listed(ps, acc) == Some(acc)
      else
        && PieceFits(cl, ps[0]) && AllPieces(cl, ps[1..])
        && (ps[0].Again? ==> |acc| > 0)
        && PiecesText(cl, ps) == PieceText(cl, ps[0]) + PiecesText(cl, ps[1..])
        && Listed(ps, acc) == Listed(ps[1..], Extended(ps[0], acc))
        && |acc| < |Extended(ps[0], acc)| <= |Listed(ps, acc).value|
  {
    hide PieceText;
    hide Has;
    assert forall i :: 0 <= i < |ps| - 1 ==> ps[1..][i] == ps[i + 1];
    if |ps| > 0 { ListedGrows(ps[1..], Extended(ps[0], acc)); }
  }

  /** One piece is read as the lengths it adds. */
  lemma PieceRead(s: Stream, cl: seq<nat>, k: nat, p: Piece, acc: seq<nat>, want: nat)
    requires PieceFits(cl, p) && At(s, k, PieceText(cl, p)) && |acc| < want && (p.Again? ==> |acc| > 0)
    ensures LengthsFrom(s, cl, k, acc, want) == LengthsFrom(s, cl, k + |PieceText(cl, p)|, Extended(p, acc), want)
  {
    hide At;
    hide Low;
    hide BitsVal;
    hide Spelling;
    hide Has;
    hide Symbol;
    SmallPowers();
    hide Pow2;
    match p
    case Len(v) => SpellingRead(s, Canonical(cl), k, v);
    case Again(n) => RepeatRead(s, cl, k, 16, n - 3, 2);
    case Zeros(n) =>
      if n <= 10 { RepeatRead(s, cl, k, 17, n - 3, 3); } else { RepeatRead(s, cl, k, 18, n - 11, 7); }
  }

  lemma AllRead(s: Stream, cl: seq<nat>, k: nat, acc: seq<nat>)
    ensures LengthsFrom(s, cl, k, acc, |acc|) == Lengths(acc, k)
  {
  }

  /** The pieces are read as the lengths they stand for. */
  lemma {:induction false} PiecesRead(s: Stream, cl: seq<nat>, k: nat, ps: seq<Piece>, acc: seq<nat>, lens: seq<nat>)
    requires AllPieces(cl, ps)
    requires At(s, k, PiecesText(cl, ps)) && Listed(ps, acc) == Some(lens)
    ensures LengthsFrom(s, cl, k, acc, |lens|) == Lengths(lens, k + |PiecesText(cl, ps)|)
    decreases |ps|
  {
    hide *;
    PiecesParts(cl, ps, acc);
    if |ps| == 0 {
      AllRead(s, cl, k, acc);
    } else {
      var w := PieceText(cl, ps[0]);
      AtParts(s, k, w, PiecesText(cl, ps[1..]));
      PieceRead(s, cl, k, ps[0], acc, |lens|);
      PiecesRead(s, cl, k + |w|, ps[1..], Extended(ps[0], acc), lens);
    }
  }

  /** A repeat's code and its count. */
  lemma RepeatRead(s: Stream, cl: seq<nat>, k: nat, t: nat, v: nat, n: nat)
    requires Has(Canonical(cl), t) && v < Pow2(n) && At(s, k, Spelling(Canonical(cl), t) + Low(v, n))
    ensures Symbol(s, cl, k) == Some(t) && t < |cl| && cl[t] == |Spelling(Canonical(cl), t)|
    ensures BitsVal(s, k + cl[t], n) == v
  {
    hide Spelling;
    hide Has;
    hide At;
    AtParts(s, k, Spelling(Canonical(cl), t), Low(v, n));
    SpellingRead(s, Canonical(cl), k, t);
    LowRead(s, k + cl[t], v, n);
  }

  /** The lengths of both codes, the lengths of the code that they are written in, how many of those
      are written, and the pieces in which the lengths are. */
  datatype Header = Header(lit: seq<nat>, dist: seq<nat>, cl: seq<nat>, fields: nat, pieces: seq<Piece>)

  ghost predicate HeaderFits(h: Header) {
    && 257 <= |h.lit| <= 288 && 1 <= |h.dist| <= 32
    && |h.cl| == 19 && (forall v :: 0 <= v < 19 ==> h.cl[v] < 8)
    && 4 <= h.fields <= 19 && (forall v :: 0 <= v < 19 && FieldOf(v) >= h.fields ==> h.cl[v] == 0)
    && AllPieces(h.cl, h.pieces) && Listed(h.pieces, []) == Some(h.lit + h.dist)
  }

  function SizesText(h: Header): (w: Text)
    requires 257 <= |h.lit| && 1 <= |h.dist| && 4 <= h.fields
    ensures |w| == 14
  {
    Low(|h.lit| - 257, 5) + Low(|h.dist| - 1, 5) + Low(h.fields - 4, 4)
  }

  ghost function HeaderText(h: Header): Text
    requires HeaderFits(h)
  {
    SizesText(h) + (FieldsText(h.cl, h.fields) + PiecesText(h.cl, h.pieces))
  }

  lemma SizesRead(s: Stream, k: nat, h: Header)
    requires HeaderFits(h) && At(s, k, SizesText(h))
    ensures BitsVal(s, k, 5) == |h.lit| - 257 && BitsVal(s, k + 5, 5) == |h.dist| - 1
    ensures BitsVal(s, k + 10, 4) == h.fields - 4
  {
    hide At;
    hide BitsVal;
    hide Low;
    SmallPowers();
    hide Pow2;
    var (a, b, c) := (Low(|h.lit| - 257, 5), Low(|h.dist| - 1, 5), Low(h.fields - 4, 4));
    AtParts(s, k, a + b, c);
    AtParts(s, k, a, b);
    LowRead(s, k, |h.lit| - 257, 5);
    LowRead(s, k + 5, |h.dist| - 1, 5);
    LowRead(s, k + 10, h.fields - 4, 4);
  }

  lemma ClRead(s: Stream, k: nat, h: Header)
    requires HeaderFits(h) && At(s, k, FieldsText(h.cl, h.fields))
    ensures CodeLengthLens(s, k, h.fields) == h.cl
  {
    hide At;
    hide CodeLengthLens;
    hide FieldsText;
    forall v: nat | v < 19 ensures CodeLengthLens(s, k, h.fields)[v] == h.cl[v] {
      FieldsRead(s, k, h.cl, h.fields, v);
    }
  }

  /** A header is read as the lengths of its two codes, whatever runs it has them in. */
  lemma HeaderRead(s: Stream, k: nat, h: Header)
    requires HeaderFits(h) && At(s, k, HeaderText(h))
    ensures DynamicTables(s, k) == Tables(h.lit, h.dist, k + |HeaderText(h)|)
  {
    hide At;
    hide BitsVal;
    hide SizesText;
    hide FieldsText;
    hide PiecesText;
    hide LengthsFrom;
    hide CodeLengthLens;
    hide AllPieces;
    hide Listed;
    var (sizes, fields, pieces) := (SizesText(h), FieldsText(h.cl, h.fields), PiecesText(h.cl, h.pieces));
    AtParts(s, k, sizes, fields + pieces);
    AtParts(s, k + 14, fields, pieces);
    SizesRead(s, k, h);
    ClRead(s, k + 14, h);
    PiecesRead(s, h.cl, k + 14 + 3 * h.fields, h.pieces, [], h.lit + h.dist);
  }

  /** The lengths one by one. */
  function OneByOne(lens: seq<nat>): seq<Piece> { seq(|lens|, i requires 0 <= i < |lens| => Len(lens[i])) }

  lemma {:induction false} OneByOneListed(lens: seq<nat>, acc: seq<nat>)
    ensures Listed(OneByOne(lens), acc) == Some(acc + lens)
    decreases |lens|
  {
    if |lens| > 0 {
      assert OneByOne(lens)[1..] == OneByOne(lens[1..]);
      OneByOneListed(lens[1..], acc + [lens[0]]);
      assert acc + [lens[0]] + lens[1..] == acc + lens;
    } else {
      assert acc + lens == acc;
    }
  }

  lemma FlatHas(cl: seq<nat>, v: nat)
    requires cl == Constant(19, 5) && v < 19
    ensures Has(Canonical(cl), v)
  {
    SmallPowers();
    hide Pow2;
    FlatCodes(cl, 5, v);
  }

  lemma OneByOnePieces(cl: seq<nat>, lens: seq<nat>)
    requires forall v: nat :: v <= 15 ==> Has(Canonical(cl), v)
    requires forall i :: 0 <= i < |lens| ==> lens[i] <= 15
    ensures AllPieces(cl, OneByOne(lens))
  {
    hide Has;
  }

  /** All lengths up to 15 have a header: five bits for each symbol do. */
  lemma EveryHeader(lit: seq<nat>, dist: seq<nat>)
    requires 257 <= |lit| <= 288 && 1 <= |dist| <= 32
    requires forall i :: 0 <= i < |lit + dist| ==> (lit + dist)[i] <= 15
    ensures HeaderFits(Header(lit, dist, Constant(19, 5), 19, OneByOne(lit + dist)))
  {
    var cl := Constant(19, 5);
    OneByOneListed(lit + dist, []);
    SmallPowers();
    hide Pow2;
    hide Has;
    hide Listed;
    hide OneByOne;
    forall v: nat | v < 19 ensures Has(Canonical(cl), v) {
      FlatHas(cl, v);
    }
    assert forall v: nat :: v < 19 ==> FieldOf(v) < 19;
    hide FieldOf;
    OneByOnePieces(cl, lit + dist);
    hide AllPieces;
    assert [] + (lit + dist) == lit + dist;
  }

  // ----- blocks and streams (sections 3.2.3 and 3.2.4) -----

  datatype Chapter = Stored(bytes: seq<Byte>) | Fixed(toks: seq<Token>) | Dynamic(header: Header, toks: seq<Token>)

  ghost predicate ChapterFits(b: Chapter, out: seq<Byte>) {
    match b
    case Stored(bytes) => |bytes| < 65536
    case Fixed(toks) => AllWritable(FixedLiteral, FixedDistance, toks) && Reaching(toks, out)
    case Dynamic(h, toks) =>
      && HeaderFits(h) && Has(Canonical(h.lit), 256)
      && AllWritable(Canonical(h.lit), Canonical(h.dist), toks) && Reaching(toks, out)
  }

  ghost function Continued(b: Chapter, out: seq<Byte>): seq<Byte>
    requires ChapterFits(b, out)
  {
    match b
    case Stored(bytes) => out + bytes
    case Fixed(toks) => Expanded(toks, out)
    case Dynamic(_, toks) => Expanded(toks, out)
  }

  function Padding(k: nat): (w: Text)
    ensures (k + |w|) % 8 == 0 && |w| < 8
  {
    seq((8 - k % 8) % 8, _ => 0)
  }

  function BytesText(bytes: seq<Byte>): (w: Text)
    ensures |w| == 8 * |bytes|
  {
    if |bytes| == 0 then [] else BytesText(bytes[..|bytes| - 1]) + Low(bytes[|bytes| - 1], 8)
  }

  /** Up to a whole byte, then the length, its complement, and the bytes. */
  function StoredText(k: nat, bytes: seq<Byte>): Text
    requires |bytes| < 65536
  {
    Padding(k) + (Low(|bytes|, 16) + Low(65535 - |bytes|, 16) + BytesText(bytes))
  }

  function KindOf(b: Chapter): nat {
    match b
    case Stored(_) => 0
    case Fixed(_) => 1
    case Dynamic(_, _) => 2
  }

  /** What follows a block's first three bits. */
  ghost function ChapterText(b: Chapter, k: nat, out: seq<Byte>): Text
    requires ChapterFits(b, out)
  {
    match b
    case Stored(bytes) => StoredText(k, bytes)
    case Fixed(toks) => BodyText(FixedLiteral, FixedDistance, toks)
    case Dynamic(h, toks) => HeaderText(h) + BodyText(Canonical(h.lit), Canonical(h.dist), toks)
  }

  lemma {:induction false} BytesRead(s: Stream, k: nat, bytes: seq<Byte>)
    requires At(s, k, BytesText(bytes))
    ensures BytesAt(s, k, |bytes|) == bytes
  {
    hide At;
    hide Low;
    hide BitsVal;
    if |bytes| > 0 {
      var (front, last) := (bytes[..|bytes| - 1], bytes[|bytes| - 1]);
      AtParts(s, k, BytesText(front), Low(last, 8));
      BytesRead(s, k, front);
      SmallPowers();
      LowRead(s, k + 8 * |front|, last, 8);
    }
  }

  lemma StoredRead(s: Stream, end: nat, k: nat, bytes: seq<Byte>, out: seq<Byte>)
    requires |bytes| < 65536 && At(s, k, StoredText(k, bytes)) && k + |StoredText(k, bytes)| <= end
    ensures StoredBlock(s, end, k, out) == Done(k + |StoredText(k, bytes)|, out + bytes)
  {
    hide At;
    hide Low;
    hide BitsVal;
    hide BytesText;
    hide BytesAt;
    var (pad, size, check) := (Padding(k), Low(|bytes|, 16), Low(65535 - |bytes|, 16));
    hide Padding;
    var a := k + |pad|;
    AlignedUp(k, a);
    AtParts(s, k, pad, size + check + BytesText(bytes));
    AtParts(s, a, size + check, BytesText(bytes));
    AtParts(s, a, size, check);
    assert Pow2(16) == 65536 by { SmallPowers(); assert Pow2(14) == 2 * Pow2(13); assert Pow2(16) == 4 * Pow2(14); }
    hide Pow2;
    LowRead(s, a, |bytes|, 16);
    BytesRead(s, a + 32, bytes);
  }

  lemma ChapterRead(s: Stream, end: nat, k: nat, b: Chapter, out: seq<Byte>)
    requires ChapterFits(b, out) && At(s, k, ChapterText(b, k, out)) && k + |ChapterText(b, k, out)| <= end
    ensures Block(s, end, k, KindOf(b), out) == Done(k + |ChapterText(b, k, out)|, Continued(b, out))
  {
    hide At;
    hide Has;
    hide HeaderFits;
    hide HeaderText;
    hide BodyText;
    hide StoredText;
    hide StoredBlock;
    hide AllWritable;
    hide Inflate.Coded;
    hide Expanded;
    hide Reaching;
    match b
    case Stored(bytes) => StoredRead(s, end, k, bytes, out);
    case Fixed(toks) =>
      assert Has(FixedLiteral, 256) by { FixedHas(); }
      BodyRead(s, end, FixedLiteral, FixedDistance, k, toks, out);
    case Dynamic(h, toks) =>
      var w := HeaderText(h);
      AtParts(s, k, w, BodyText(Canonical(h.lit), Canonical(h.dist), toks));
      HeaderRead(s, k, h);
      BodyRead(s, end, Canonical(h.lit), Canonical(h.dist), k + |w|, toks, out);
  }

  lemma FixedHas()
    ensures Has(FixedLiteral, 256)
  {
  }

  ghost predicate StreamFits(bs: seq<Chapter>, out: seq<Byte>) {
    |bs| > 0 ==> ChapterFits(bs[0], out) && StreamFits(bs[1..], Continued(bs[0], out))
  }

  /** The output of all the blocks. */
  ghost function Told(bs: seq<Chapter>, out: seq<Byte>): seq<Byte>
    requires StreamFits(bs, out)
  {
    if |bs| == 0 then out else Told(bs[1..], Continued(bs[0], out))
  }

  ghost function StreamText(bs: seq<Chapter>, k: nat, out: seq<Byte>): Text
    requires StreamFits(bs, out)
  {
    if |bs| == 0 then []
    else
      var first := FirstText(bs, k, out);
      first + StreamText(bs[1..], k + |first|, Continued(bs[0], out))
  }

  /** Every block begins with a bit that only the last has set, and two bits for its kind. */
  ghost function FirstText(bs: seq<Chapter>, k: nat, out: seq<Byte>): Text
    requires |bs| > 0 && ChapterFits(bs[0], out)
  {
    [if |bs| == 1 then 1 else 0] + Low(KindOf(bs[0]), 2) + ChapterText(bs[0], k + 3, out)
  }

  lemma FirstRead(s: Stream, end: nat, k: nat, bs: seq<Chapter>, out: seq<Byte>)
    requires |bs| > 0 && ChapterFits(bs[0], out)
    requires At(s, k, FirstText(bs, k, out)) && k + |FirstText(bs, k, out)| <= end
    ensures s(k) == (if |bs| == 1 then 1 else 0) && BitsVal(s, k + 1, 2) == KindOf(bs[0])
    ensures Block(s, end, k + 3, KindOf(bs[0]), out) == Done(k + |FirstText(bs, k, out)|, Continued(bs[0], out))
    ensures k < end
  {
    hide BitsVal;
    hide ChapterFits;
    hide ChapterText;
    hide Block;
    hide Low;
    hide Continued;
    var flag: Text := [if |bs| == 1 then 1 else 0];
    var kind := Low(KindOf(bs[0]), 2);
    var body := ChapterText(bs[0], k + 3, out);
    AtParts(s, k, flag + kind, body);
    AtParts(s, k, flag, kind);
    assert s(k + 0) == flag[0];
    hide At;
    SmallPowers();
    LowRead(s, k + 1, KindOf(bs[0]), 2);
    ChapterRead(s, end, k + 3, bs[0], out);
  }

  lemma StreamParts(bs: seq<Chapter>, k: nat, out: seq<Byte>)
    requires |bs| > 0 && StreamFits(bs, out)
    ensures ChapterFits(bs[0], out) && StreamFits(bs[1..], Continued(bs[0], out))
    ensures StreamText(bs, k, out)
         == FirstText(bs, k, out) + StreamText(bs[1..], k + |FirstText(bs, k, out)|, Continued(bs[0], out))
    ensures Told(bs, out) == Told(bs[1..], Continued(bs[0], out))
    ensures |bs| == 1 ==> StreamText(bs, k, out) == FirstText(bs, k, out) && Told(bs, out) == Continued(bs[0], out)
  {
    hide ChapterFits;
    hide ChapterText;
    hide Continued;
    hide Low;
  }

  lemma BlockNext(s: Stream, end: nat, k: nat, kind: nat, out: seq<Byte>, pos: nat, more: seq<Byte>)
    requires k < end && BitsVal(s, k + 1, 2) == kind && Block(s, end, k + 3, kind, out) == Done(pos, more)
    ensures Blocks(s, end, k, out) == if s(k) == 1 then Done(pos, more) else Blocks(s, end, pos, more)
  {
    hide Block;
    hide BitsVal;
  }

  /** A stream of blocks is read as their output. */
  lemma {:induction false} StreamRead(s: Stream, end: nat, k: nat, bs: seq<Chapter>, out: seq<Byte>)
    requires |bs| > 0 && StreamFits(bs, out)
    requires At(s, k, StreamText(bs, k, out)) && k + |StreamText(bs, k, out)| <= end
    ensures Blocks(s, end, k, out) == Done(k + |StreamText(bs, k, out)|, Told(bs, out))
    decreases |bs|
  {
    hide *;
    StreamParts(bs, k, out);
    var w := FirstText(bs, k, out);
    AtParts(s, k, w, StreamText(bs[1..], k + |w|, Continued(bs[0], out)));
    FirstRead(s, end, k, bs, out);
    BlockNext(s, end, k, KindOf(bs[0]), out, k + |w|, Continued(bs[0], out));
    if |bs| > 1 { StreamRead(s, end, k + |w|, bs[1..], Continued(bs[0], out)); }
  }

  // ----- bytes -----

  function Padded(w: Text): Stream { (k: nat) => if k < |w| then w[k] else 0 }

  /** The bits in bytes, each from its least significant bit on. */
  function Packed(w: Text): (data: seq<Byte>)
    ensures |data| == (|w| + 7) / 8
  {
    seq((|w| + 7) / 8, i requires 0 <= i < (|w| + 7) / 8 => OctetAt(Padded(w), i))
  }

  function OctetAt(s: Stream, i: nat): Byte {
    ByteBound(s, 8 * i);
    BitsVal(s, 8 * i, 8)
  }

  lemma {:induction false} ShiftedBits(s: Stream, k: nat, n: nat, j: nat)
    requires j <= n
    ensures Shifted(BitsVal(s, k, n), j) == BitsVal(s, k + j, n - j)
  {
    if j > 0 { ShiftedBits(s, k, n, j - 1); }
  }

  lemma LowestBit(s: Stream, k: nat, n: nat)
    requires n > 0
    ensures BitsVal(s, k, n) % 2 == s(k)
  {
    assert BitsVal(s, k, n) == s(k) + 2 * BitsVal(s, k + 1, n - 1);
  }

  lemma PackedBit(w: Text, i: nat)
    requires i < |w|
    ensures BitsOf(Packed(w))(i) == w[i]
  {
    hide BitsVal;
    hide Shifted;
    var (q, r) := (i / 8, i % 8);
    assert i == 8 * q + r && q < |Packed(w)|;
    ShiftedBits(Padded(w), 8 * q, 8, r);
    LowestBit(Padded(w), i, 8 - r);
  }

  lemma PackedRead(w: Text)
    ensures At(BitsOf(Packed(w)), 0, w)
  {
    forall i | 0 <= i < |w| ensures BitsOf(Packed(w))(0 + i) == w[i] {
      PackedBit(w, i);
    }
  }

  /** Whatever blocks a stream is written in, stored, in the fixed code or with codes of their own,
      it is read back as their output. */
  lemma DeflateRoundTrip(bs: seq<Chapter>)
    requires |bs| > 0 && StreamFits(bs, [])
    ensures Inflated(Packed(StreamText(bs, 0, []))) == Done(|StreamText(bs, 0, [])|, Told(bs, []))
  {
    hide *;
    var w := StreamText(bs, 0, []);
    PackedRead(w);
    StreamRead(BitsOf(Packed(w)), 8 * |Packed(w)|, 0, bs, []);
    InflatedIs(Packed(w));
  }

  lemma InflatedIs(data: seq<Byte>)
    ensures Inflated(data) == Blocks(BitsOf(data), 8 * |data|, 0, [])
  {
  }

  /** What a stream may not have ends the output where it stands: a reference to before its start, a
      length code above 285, a third kind of code. */
  lemma Refused(s: Stream, end: nat, lit: Code, dist: Code, k: nat, tok: Token, t: nat, out: seq<Byte>)
    ensures Writable(lit, dist, tok) && !Reaches(tok, out) && At(s, k, TokenText(lit, dist, tok)) ==>
      Inflate.Coded(s, end, LensOf(lit), LensOf(dist), k, out) == Stopped(out)
    ensures t > 285 && Has(lit, t) && At(s, k, Spelling(lit, t)) ==>
      Inflate.Coded(s, end, LensOf(lit), LensOf(dist), k, out) == Stopped(out)
    ensures k <= end && s(k + 1) == 1 && s(k + 2) == 1 ==> Blocks(s, end, k, out) == Stopped(out)
  {
    hide TokenText;
    hide Spelling;
    hide At;
    hide Has;
    hide LensOf;
    hide Writable;
    hide ReferenceAt;
    if Writable(lit, dist, tok) && At(s, k, TokenText(lit, dist, tok)) { TokenRead(s, lit, dist, k, tok); }
    if Has(lit, t) && At(s, k, Spelling(lit, t)) { SpellingRead(s, lit, k, t); }
    assert BitsVal(s, k + 1, 2) == s(k + 1) + 2 * BitsVal(s, k + 2, 1);
    assert BitsVal(s, k + 2, 1) == s(k + 2) + 2 * BitsVal(s, k + 3, 0);
  }

  const EXAMPLE: seq<nat> := [3, 3, 3, 3, 3, 2, 4, 4]

  lemma ExampleCounts(t: nat)
    requires t <= 8
    ensures Among(EXAMPLE, 1, t) == 0 && Among(EXAMPLE, 2, t) == if t < 6 then 0 else 1
    ensures Among(EXAMPLE, 3, t) == (if t < 5 then t else 5) && Among(EXAMPLE, 4, t) == if t < 7 then 0 else t - 6
  {
    if t > 0 { ExampleCounts(t - 1); }
  }

  /** The example of section 3.2.2: the codewords of eight symbols. */
  lemma CanonicalExample()
    ensures Codeword(EXAMPLE, 0) == 2 && Codeword(EXAMPLE, 1) == 3 && Codeword(EXAMPLE, 2) == 4
    ensures Codeword(EXAMPLE, 3) == 5 && Codeword(EXAMPLE, 4) == 6 && Codeword(EXAMPLE, 5) == 0
    ensures Codeword(EXAMPLE, 6) == 14 && Codeword(EXAMPLE, 7) == 15
  {
    forall t: nat | t <= 8
      ensures Among(EXAMPLE, 1, t) == 0 && Among(EXAMPLE, 2, t) == if t < 6 then 0 else 1
      ensures Among(EXAMPLE, 3, t) == (if t < 5 then t else 5) && Among(EXAMPLE, 4, t) == if t < 7 then 0 else t - 6
    {
      ExampleCounts(t);
    }
    hide Among;
    assert FirstCode(EXAMPLE, 1) == 0;
    assert FirstCode(EXAMPLE, 2) == 0;
    assert FirstCode(EXAMPLE, 3) == 2;
    assert FirstCode(EXAMPLE, 4) == 14;
  }
}
