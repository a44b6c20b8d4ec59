/** A byte buffer read bit by bit, low bits first. */
module BitReader {
  type Byte = x: int | 0 <= x < 256

  type Bit = x: int | 0 <= x < 2

  /** b shifted right by j. */
  function Shifted(b: nat, j: nat): nat {
    if j == 0 then b else Shifted(b, j - 1) / 2
  }

  function BitAt(data: seq<Byte>, k: nat): Bit
    requires k < 8 * |data|
  {
    Shifted(data[k / 8], k % 8) % 2
  }

  type Stream = nat -> Bit

  /** The bits of a buffer; past its end there are zeros. */
  function BitsOf(data: seq<Byte>): Stream { (k: nat) => if k < 8 * |data| then BitAt(data, k) else 0 }

  /** n bits from k on, the first one least significant. */
  function BitsVal(s: Stream, k: nat, n: nat): nat
    decreases n
  {
    if n == 0 then 0 else s(k) + 2 * BitsVal(s, k + 1, n - 1)
  }

  function Pow2(n: nat): (r: nat)
    ensures r > 0
  {
    if n == 0 then 1 else 2 * Pow2(n - 1)
  }

  lemma {:induction false} BitsValSnoc(s: Stream, k: nat, n: nat)
    ensures BitsVal(s, k, n + 1) == BitsVal(s, k, n) + s(k + n) * Pow2(n)
    decreases n
  {
    if n > 0 {
      BitsValSnoc(s, k + 1, n - 1);
      assert s(k + n) * Pow2(n) == 2 * (s(k + n) * Pow2(n - 1));
    }
  }

  lemma {:induction false} BitsValBound(s: Stream, k: nat, n: nat)
    ensures BitsVal(s, k, n) < Pow2(n)
    decreases n
  {
    if n > 0 { BitsValBound(s, k + 1, n - 1); }
  }

  /** From an aligned position the bits of a byte give the byte back, shifted by those read. */
  lemma {:induction false} TailOfByte(data: seq<Byte>, i: nat, j: nat)
    requires i < |data| && j <= 8
    ensures BitsVal(BitsOf(data), 8 * i + j, 8 - j) == Shifted(data[i], j)
    decreases 8 - j
  {
    ShiftedBound(data[i], j);
    if j < 8 {
      TailOfByte(data, i, j + 1);
      assert (8 * i + j) / 8 == i && (8 * i + j) % 8 == j;
    }
  }

  lemma {:induction false} ShiftedBound(b: Byte, j: nat)
    requires j <= 8
    ensures Shifted(b, j) < Pow2(8 - j)
  {
    if j > 0 {
      ShiftedBound(b, j - 1);
      assert Pow2(8 - (j - 1)) == 2 * Pow2(8 - j);
    } else {
      assert Pow2(8) == 256 by { assert Pow2(4) == 16; assert Pow2(6) == 64; }
    }
  }

  class Bits {
    const p: seq<Byte>
    var pos: nat
    var buf: nat
    var cnt: nat
    var bad: bool
    ghost var at: nat

    constructor (p: seq<Byte>)
      ensures this.p == p && Valid() && at == 0 && !bad
    {
      this.p, pos, buf, cnt, bad, at := p, 0, 0, 0, false, 0;
    }

    ghost function End(): nat { 8 * |p| }

    /** at counts the bits asked for; asking past the end marks the reader bad. */
    ghost predicate Valid()
      reads `pos, `buf, `cnt, `bad, `at
    {
      && pos <= |p| && cnt < 8 && (cnt > 0 ==> pos > 0 && buf == Shifted(p[pos - 1], 8 - cnt))
      && if at <= End() then at == 8 * pos - cnt else bad && pos == |p| && cnt == 0
    }

    lemma PastEnd()
      requires Valid()
      ensures at > End() ==> bad
    {
    }

    method Spoil()
      requires Valid()
      modifies `bad
      ensures Valid() && bad
    {
      bad := true;
    }

    /** The next bit; past the end a zero. */
    method ReadBit() returns (b: Bit)
      requires Valid()
      modifies `pos, `buf, `cnt, `bad, `at
      ensures Valid() && b == BitsOf(p)(old(at)) && at == old(at) + 1 && bad == (old(bad) || at > End())
    {
      at := at + 1;
      if cnt == 0 {
        if pos >= |p| {
          bad := true;
          return 0;
        }
        buf := p[pos];
        pos := pos + 1;
        cnt := 8;
      }
      ghost var k := 8 * pos - cnt;
      assert k / 8 == pos - 1 && k % 8 == 8 - cnt;
      b := buf % 2;
      buf := buf / 2;
      cnt := cnt - 1;
    }

    method Read(n: nat) returns (v: nat)
      requires Valid()
      modifies `pos, `buf, `cnt, `bad, `at
      ensures Valid() && v == BitsVal(BitsOf(p), old(at), n) && at == old(at) + n && bad == (old(bad) || at > End())
    {
      v := 0;
      var weight: nat := 1;
      var i := 0;
      while i < n
        invariant 0 <= i <= n && Valid() && at == old(at) + i && bad == (old(bad) || at > End())
        invariant weight == Pow2(i) && v == BitsVal(BitsOf(p), old(at), i)
      {
        var b := ReadBit();
        BitsValSnoc(BitsOf(p), old(at), i);
        v := v + b * weight;
        assert b * weight == BitsOf(p)(old(at) + i) * Pow2(i);
        weight := 2 * weight;
        i := i + 1;
      }
    }

    /** Drop the rest of the current byte. */
    method Align()
      requires Valid()
      modifies `cnt, `at
      ensures Valid() && cnt == 0
      ensures if old(at) <= End() then at == 8 * pos && old(at) <= at < old(at) + 8 else at == old(at)
    {
      cnt := 0;
      if at <= End() {
        at := 8 * pos;
      }
    }
  }
}

/** Canonical Huffman codes: section 3.2.2 of RFC 1951, and the table that decodes them. */
module Huffman {
  import opened Options
  import opened BitReader

  // ----- the codewords that the lengths determine -----

  /** How many of the first n symbols have codewords of length l. */
  function Among(lens: seq<nat>, l: nat, n: nat): (c: nat)
    requires n <= |lens|
    ensures c <= n
  {
    if n == 0 then 0 else Among(lens, l, n - 1) + (if lens[n - 1] == l then 1 else 0)
  }

  /** Length zero means that the symbol has no codeword. */
  function Count(lens: seq<nat>, l: nat): nat {
    if l == 0 then 0 else Among(lens, l, |lens|)
  }

  function FirstCode(lens: seq<nat>, l: nat): nat {
    if l == 0 then 0 else 2 * (FirstCode(lens, l - 1) + Count(lens, l - 1))
  }

  predicate Coded(lens: seq<nat>, s: nat) { s < |lens| && lens[s] > 0 }

  /** Codewords of one length are consecutive, in the order of their symbols. */
  function Codeword(lens: seq<nat>, s: nat): nat
    requires Coded(lens, s)
  {
    FirstCode(lens, lens[s]) + Among(lens, lens[s], s)
  }

  /** n bits from k on, the first one most significant. */
  function Prefix(s: Stream, k: nat, n: nat): nat {
    if n == 0 then 0 else 2 * Prefix(s, k, n - 1) + s(k + n - 1)
  }

  /** The codeword of t stands at k. */
  predicate Matches(s: Stream, lens: seq<nat>, k: nat, t: nat) {
    Coded(lens, t) && Prefix(s, k, lens[t]) == Codeword(lens, t)
  }

  lemma {:induction false} AmongGrows(lens: seq<nat>, l: nat, m: nat, n: nat)
    requires m <= n <= |lens|
    ensures Among(lens, l, m) <= Among(lens, l, n)
    ensures m < n && lens[m] == l ==> Among(lens, l, m) < Among(lens, l, n)
    decreases n
  {
    if m < n { AmongGrows(lens, l, m, n - 1); }
  }

  /** The r-th symbol of length l. */
  function Nth(lens: seq<nat>, l: nat, r: nat, n: nat): (s: nat)
    requires n <= |lens| && r < Among(lens, l, n)
    ensures s < n && lens[s] == l && Among(lens, l, s) == r
  {
    if lens[n - 1] == l && Among(lens, l, n - 1) == r then n - 1 else Nth(lens, l, r, n - 1)
  }

  /** The first code of the next length lies above every code of this one. */
  lemma {:induction false} PassedBy(s: Stream, lens: seq<nat>, k: nat, j: nat, n: nat)
    requires j < n && Prefix(s, k, j) < FirstCode(lens, j) + Count(lens, j)
    ensures Prefix(s, k, n) < FirstCode(lens, n)
    decreases n
  {
    if j < n - 1 { PassedBy(s, lens, k, j, n - 1); }
  }

  /** No codeword is a prefix of another: at most one symbol matches. */
  lemma MatchUnique(s: Stream, lens: seq<nat>, k: nat, t: nat, u: nat)
    requires Matches(s, lens, k, t) && Matches(s, lens, k, u)
    ensures t == u
  {
    if lens[t] == lens[u] {
      if t < u { AmongGrows(lens, lens[t], t, u); }
      if u < t { AmongGrows(lens, lens[t], u, t); }
    } else {
      AmongGrows(lens, lens[t], t, |lens|);
      AmongGrows(lens, lens[u], u, |lens|);
      if lens[t] < lens[u] { PassedBy(s, lens, k, lens[t], lens[u]); } else { PassedBy(s, lens, k, lens[u], lens[t]); }
    }
  }

  /** The symbol whose codeword stands at k. */
  ghost function Symbol(s: Stream, lens: seq<nat>, k: nat): (r: Option<nat>)
    ensures r.Some? ==> Matches(s, lens, k, r.value)
    ensures r.None? ==> forall t :: !Matches(s, lens, k, t)
  {
    if t: nat :| Matches(s, lens, k, t) then Some(t) else None
  }

  function MaxLen(lens: seq<nat>, n: nat): (m: nat)
    requires n <= |lens|
    ensures forall i :: 0 <= i < n ==> lens[i] <= m
  {
    if n == 0 then 0 else var m := MaxLen(lens, n - 1); if lens[n - 1] > m then lens[n - 1] else m
  }

  // ----- Kraft -----

  /** The Kraft sum in units of 2 to the minus m. */
  function Kraft(lens: seq<nat>, m: nat, n: nat): nat
    requires n <= |lens|
  {
    if n == 0 then 0
    else Kraft(lens, m, n - 1) + (if 0 < lens[n - 1] <= m then Pow2(m - lens[n - 1]) else 0)
  }

  lemma {:induction false} KraftDoubles(lens: seq<nat>, m: nat, n: nat)
    requires n <= |lens|
    ensures Kraft(lens, m + 1, n) == 2 * Kraft(lens, m, n) + Among(lens, m + 1, n)
  {
    if n > 0 { KraftDoubles(lens, m, n - 1); }
  }

  lemma {:induction false} KraftZero(lens: seq<nat>, n: nat)
    requires n <= |lens|
    ensures Kraft(lens, 0, n) == 0
  {
    if n > 0 { KraftZero(lens, n - 1); }
  }

  /** The end of the codes of length m is the Kraft sum of the lengths up to m. */
  lemma {:induction false} KraftIsCodeEnd(lens: seq<nat>, m: nat)
    ensures Kraft(lens, m, |lens|) == FirstCode(lens, m) + Count(lens, m)
  {
    if m == 0 {
      KraftZero(lens, |lens|);
    } else {
      KraftIsCodeEnd(lens, m - 1);
      KraftDoubles(lens, m - 1, |lens|);
    }
  }

  lemma {:induction false} CodeEndFits(lens: seq<nat>, l: nat, m: nat)
    requires l <= m && FirstCode(lens, m) + Count(lens, m) <= Pow2(m)
    ensures FirstCode(lens, l) + Count(lens, l) <= Pow2(l)
    decreases m
  {
    if l < m { CodeEndFits(lens, l, m - 1); }
  }

  ghost predicate AllFit(lens: seq<nat>) {
    forall s: nat :: Coded(lens, s) ==> Codeword(lens, s) < Pow2(lens[s])
  }

  lemma {:induction false} MaxLenReached(lens: seq<nat>, n: nat) returns (s: nat)
    requires n <= |lens| && MaxLen(lens, n) > 0
    ensures s < n && lens[s] == MaxLen(lens, n)
  {
    if lens[n - 1] == MaxLen(lens, n) { s := n - 1; } else { s := MaxLenReached(lens, n - 1); }
  }

  /** Every codeword fits in its length exactly when the Kraft sum is at most one. */
  lemma KraftExactly(lens: seq<nat>)
    ensures var m := MaxLen(lens, |lens|); Kraft(lens, m, |lens|) <= Pow2(m) <==> AllFit(lens)
  {
    var m := MaxLen(lens, |lens|);
    KraftIsCodeEnd(lens, m);
    if Kraft(lens, m, |lens|) <= Pow2(m) {
      forall s: nat | Coded(lens, s)
        ensures Codeword(lens, s) < Pow2(lens[s])
      {
        CodeEndFits(lens, lens[s], m);
        AmongGrows(lens, lens[s], s, |lens|);
      }
    }
    if AllFit(lens) && m > 0 {
      var t := MaxLenReached(lens, |lens|);
      AmongGrows(lens, m, t, |lens|);
      var last := Nth(lens, m, Count(lens, m) - 1, |lens|);
      assert Codeword(lens, last) < Pow2(lens[last]);
    }
  }

  /** Bit i of the n-bit text of v, the most significant first. */
  function CodeBit(v: nat, n: nat, i: nat): Bit
    requires i < n
  {
    Shifted(v, n - 1 - i) % 2
  }

  lemma {:induction false} PrefixOfText(s: Stream, k: nat, v: nat, n: nat, j: nat)
    requires j <= n && v < Pow2(n)
    requires forall i :: 0 <= i < n ==> s(k + i) == CodeBit(v, n, i)
    ensures Prefix(s, k, j) == Shifted(v, n - j)
    decreases j
  {
    if j == 0 {
      ShiftedOut(v, n);
    } else {
      PrefixOfText(s, k, v, n, j - 1);
      assert s(k + (j - 1)) == CodeBit(v, n, j - 1);
    }
  }

  lemma {:induction false} ShiftedOut(v: nat, n: nat)
    requires v < Pow2(n)
    ensures Shifted(v, n) == 0
  {
    ShiftedLess(v, n, n);
  }

  lemma {:induction false} ShiftedLess(v: nat, n: nat, j: nat)
    requires v < Pow2(n) && j <= n
    ensures Shifted(v, j) < Pow2(n - j)
  {
    if j > 0 {
      ShiftedLess(v, n, j - 1);
      assert Pow2(n - (j - 1)) == 2 * Pow2(n - j);
    }
  }

  /** With a Kraft sum of at most one, the codeword of t followed by any bits is read as t. */
  lemma CodewordIsRead(s: Stream, lens: seq<nat>, k: nat, t: nat)
    requires Kraft(lens, MaxLen(lens, |lens|), |lens|) <= Pow2(MaxLen(lens, |lens|))
    requires Coded(lens, t)
    requires forall i :: 0 <= i < lens[t] ==> s(k + i) == CodeBit(Codeword(lens, t), lens[t], i)
    ensures Symbol(s, lens, k) == Some(t)
  {
    KraftExactly(lens);
    PrefixOfText(s, k, Codeword(lens, t), lens[t], lens[t]);
    assert Matches(s, lens, k, t);
    MatchUnique(s, lens, k, t, Symbol(s, lens, k).value);
  }

  // ----- the table -----

  /** How many of the first n symbols have shorter codewords than l. */
  function Offset(lens: seq<nat>, l: nat, n: nat): nat
    requires n <= |lens|
  {
    if l <= 1 then 0 else Offset(lens, l - 1, n) + Among(lens, l - 1, n)
  }

  function Place(lens: seq<nat>, s: nat): nat
    requires Coded(lens, s)
  {
    Offset(lens, lens[s], |lens|) + Among(lens, lens[s], s)
  }

  lemma {:induction false} OffsetStep(lens: seq<nat>, l: nat, n: nat)
    requires n < |lens|
    ensures Offset(lens, l, n + 1) == Offset(lens, l, n) + (if 0 < lens[n] < l then 1 else 0)
  {
    if l > 1 { OffsetStep(lens, l - 1, n); }
  }

  lemma {:induction false} OffsetZero(lens: seq<nat>, l: nat)
    ensures Offset(lens, l, 0) == 0
  {
    if l > 1 { OffsetZero(lens, l - 1); }
  }

  lemma {:induction false} OffsetBound(lens: seq<nat>, l: nat, n: nat)
    requires n <= |lens|
    ensures Offset(lens, l, n) <= n
  {
    if n == 0 {
      OffsetZero(lens, l);
    } else {
      OffsetBound(lens, l, n - 1);
      OffsetStep(lens, l, n - 1);
    }
  }

  lemma {:induction false} OffsetGrows(lens: seq<nat>, l: nat, m: nat)
    requires l <= m
    ensures Offset(lens, l, |lens|) <= Offset(lens, m, |lens|)
    decreases m
  {
    if l < m { OffsetGrows(lens, l, m - 1); }
  }

  lemma PlaceBounds(lens: seq<nat>, s: nat)
    requires Coded(lens, s)
    ensures Offset(lens, lens[s], |lens|) <= Place(lens, s) < Offset(lens, lens[s] + 1, |lens|) <= |lens|
  {
    AmongGrows(lens, lens[s], s, |lens|);
    OffsetBound(lens, lens[s] + 1, |lens|);
  }

  lemma PlacesApart(lens: seq<nat>, s: nat, t: nat)
    requires Coded(lens, s) && Coded(lens, t) && s < t
    ensures Place(lens, s) != Place(lens, t)
  {
    if lens[s] == lens[t] {
      AmongGrows(lens, lens[s], s, t);
    } else {
      PlaceBounds(lens, s);
      PlaceBounds(lens, t);
      var (low, high) := if lens[s] < lens[t] then (lens[s], lens[t]) else (lens[t], lens[s]);
      OffsetGrows(lens, low + 1, high);
    }
  }

  method LongestLength(lens: seq<nat>) returns (m: nat)
    ensures m == MaxLen(lens, |lens|)
  {
    m := 0;
    for i := 0 to |lens|
      invariant m == MaxLen(lens, i)
    {
      if lens[i] > m {
        m := lens[i];
      }
    }
  }

  method CountLengths(lens: seq<nat>, m: nat) returns (count: seq<nat>)
    requires m == MaxLen(lens, |lens|)
    ensures |count| == m + 1 && forall l :: 0 <= l <= m ==> count[l] == Count(lens, l)
  {
    count := seq(m + 1, _ => 0);
    for i := 0 to |lens|
      invariant |count| == m + 1 && forall l :: 0 <= l <= m ==> count[l] == Among(lens, l, i)
    {
      count := count[lens[i] := count[lens[i]] + 1];
    }
    count := count[0 := 0];
  }

  method Offsets(lens: seq<nat>, count: seq<nat>, m: nat) returns (offs: seq<nat>)
    requires |count| == m + 1 && forall l :: 0 <= l <= m ==> count[l] == Count(lens, l)
    ensures |offs| == m + 2 && forall l :: 1 <= l <= m + 1 ==> offs[l] == Offset(lens, l, |lens|)
  {
    offs := seq(m + 2, _ => 0);
    for i := 1 to m + 1
      invariant |offs| == m + 2 && forall l :: 1 <= l <= i ==> offs[l] == Offset(lens, l, |lens|)
    {
      offs := offs[i + 1 := offs[i] + count[i]];
    }
  }

  /** Of the first n symbols every coded one is at its place. */
  ghost predicate InPlace(lens: seq<nat>, sym: seq<nat>, n: nat) {
    |sym| == |lens| && forall s: nat :: s < n && Coded(lens, s) ==> Place(lens, s) < |sym| && sym[Place(lens, s)] == s
  }

  lemma PlaceNext(lens: seq<nat>, sym: seq<nat>, i: nat)
    requires InPlace(lens, sym, i) && Coded(lens, i)
    ensures Place(lens, i) < |sym| && InPlace(lens, sym[Place(lens, i) := i], i + 1)
  {
    hide Place;
    PlaceBounds(lens, i);
    forall s: nat | s < i && Coded(lens, s)
      ensures Place(lens, s) != Place(lens, i)
    {
      PlacesApart(lens, s, i);
    }
  }

  /** Where the next symbol of each length goes once the first n are placed. */
  predicate Advanced(lens: seq<nat>, offs: seq<nat>, m: nat, n: nat)
    requires n <= |lens|
  {
    |offs| == m + 2 && forall l :: 1 <= l <= m ==> offs[l] == Offset(lens, l, |lens|) + Among(lens, l, n)
  }

  lemma AdvanceNext(lens: seq<nat>, offs: seq<nat>, m: nat, i: nat)
    requires i < |lens| && m == MaxLen(lens, |lens|) && Advanced(lens, offs, m, i)
    ensures lens[i] < |offs|
    ensures Advanced(lens, if lens[i] == 0 then offs else offs[lens[i] := offs[lens[i]] + 1], m, i + 1)
    ensures lens[i] > 0 ==> offs[lens[i]] == Place(lens, i)
  {
    hide Offset;
  }

  /** Symbols are placed by length and then by number, each once. */
  method PlaceSymbols(lens: seq<nat>, offsets: seq<nat>, m: nat) returns (sym: seq<nat>)
    requires m == MaxLen(lens, |lens|)
    requires |offsets| == m + 2 && forall l :: 1 <= l <= m + 1 ==> offsets[l] == Offset(lens, l, |lens|)
    ensures InPlace(lens, sym, |lens|)
  {
    var offs := offsets;
    sym := seq(|lens|, _ => 0);
    EmptyPlace(lens, sym);
    assert Advanced(lens, offs, m, 0);
    hide *;
    for i := 0 to |lens|
      invariant Advanced(lens, offs, m, i) && InPlace(lens, sym, i)
    {
      AdvanceNext(lens, offs, m, i);
      if lens[i] != 0 {
        Placed(lens, sym, i);
        sym := sym[offs[lens[i]] := i];
        offs := offs[lens[i] := offs[lens[i]] + 1];
      } else {
        Unplaced(lens, sym, i);
      }
    }
  }

  lemma Placed(lens: seq<nat>, sym: seq<nat>, i: nat)
    requires i < |lens| && lens[i] > 0 && InPlace(lens, sym, i)
    ensures Coded(lens, i) && Place(lens, i) < |sym| && InPlace(lens, sym[Place(lens, i) := i], i + 1)
  {
    PlaceNext(lens, sym, i);
  }

  lemma Unplaced(lens: seq<nat>, sym: seq<nat>, i: nat)
    requires i < |lens| && lens[i] == 0 && InPlace(lens, sym, i)
    ensures InPlace(lens, sym, i + 1)
  {
    UncodedInPlace(lens, sym, i);
  }

  lemma EmptyPlace(lens: seq<nat>, sym: seq<nat>)
    requires |sym| == |lens|
    ensures InPlace(lens, sym, 0)
  {
  }

  lemma UncodedInPlace(lens: seq<nat>, sym: seq<nat>, n: nat)
    requires InPlace(lens, sym, n) && !Coded(lens, n)
    ensures InPlace(lens, sym, n + 1)
  {
  }

  class Huff {
    var count: seq<nat>
    var sym: seq<nat>
    var maxbits: nat

    constructor () {
      count, sym, maxbits := [], [], 0;
    }

    ghost predicate Table(lens: seq<nat>)
      reads this
    {
      && maxbits == MaxLen(lens, |lens|)
      && |count| == maxbits + 1 && (forall l :: 0 <= l <= maxbits ==> count[l] == Count(lens, l))
      && InPlace(lens, sym, |lens|)
    }

    method Build(lens: seq<nat>)
      modifies this
      ensures Table(lens)
    {
      maxbits := LongestLength(lens);
      count := CountLengths(lens, maxbits);
      var offs := Offsets(lens, count, maxbits);
      sym := PlaceSymbols(lens, offs, maxbits);
    }

    /** The symbol whose codeword comes next, and -1 when no codeword does. */
    method Decode(b: Bits, ghost lens: seq<nat>) returns (s: int)
      requires Table(lens) && b.Valid()
      modifies b`pos, b`buf, b`cnt, b`bad, b`at
      ensures b.Valid() && b.bad == (old(b.bad) || b.at > b.End())
      ensures match Symbol(BitsOf(b.p), lens, old(b.at))
              case Some(t) => s == t && lens[t] > 0 && b.at == old(b.at) + lens[t]
              case None => s == -1 && b.at == old(b.at) + MaxLen(lens, |lens|)
    {
      hide Prefix;
      hide FirstCode;
      hide Matches;
      hide Place;
      ghost var stream, k := BitsOf(b.p), b.at;
      var code: nat, first: nat, idx: nat := 0, 0, 0;
      StartOfCode(stream, lens, k);
      for len := 1 to maxbits + 1
        invariant b.Valid() && b.bad == (old(b.bad) || b.at > b.End()) && b.at == k + len - 1
        invariant code == 2 * Prefix(stream, k, len - 1) && first == FirstCode(lens, len)
        invariant code >= first && idx == Offset(lens, len, |lens|) && NoneShorter(stream, lens, k, len)
      {
        var bit := b.ReadBit();
        code := code + bit;
        PrefixStep(stream, k, len);
        var c := count[len];
        if code - first < c {
          ghost var t := Hit(stream, lens, k, len, code - first);
          return sym[idx + (code - first)];
        }
        Miss(stream, lens, k, len);
        idx := idx + c;
        first := 2 * (first + c);
        code := 2 * code;
      }
      NoSymbol(stream, lens, k);
      s := -1;
    }
  }

  /** Codewords shorter than l do not stand at k. */
  ghost predicate NoneShorter(s: Stream, lens: seq<nat>, k: nat, l: nat) {
    forall t: nat :: Matches(s, lens, k, t) ==> lens[t] >= l
  }

  lemma StartOfCode(s: Stream, lens: seq<nat>, k: nat)
    ensures Prefix(s, k, 0) == 0 && FirstCode(lens, 1) == 0 && NoneShorter(s, lens, k, 1)
  {
    assert FirstCode(lens, 0) == 0;
  }

  lemma PrefixStep(s: Stream, k: nat, l: nat)
    requires l > 0
    ensures Prefix(s, k, l) == 2 * Prefix(s, k, l - 1) + s(k + l - 1)
  {
  }

  lemma Hit(s: Stream, lens: seq<nat>, k: nat, l: nat, r: nat) returns (t: nat)
    requires l > 0 && Prefix(s, k, l) == FirstCode(lens, l) + r && r < Count(lens, l)
    ensures Coded(lens, t) && lens[t] == l && Place(lens, t) == Offset(lens, l, |lens|) + r
    ensures Symbol(s, lens, k) == Some(t)
  {
    t := Nth(lens, l, r, |lens|);
    assert Matches(s, lens, k, t);
    MatchUnique(s, lens, k, t, Symbol(s, lens, k).value);
  }

  lemma NoSymbol(s: Stream, lens: seq<nat>, k: nat)
    requires NoneShorter(s, lens, k, MaxLen(lens, |lens|) + 1)
    ensures Symbol(s, lens, k) == None
  {
  }

  lemma Miss(s: Stream, lens: seq<nat>, k: nat, l: nat)
    requires l > 0 && Prefix(s, k, l) >= FirstCode(lens, l) + Count(lens, l)
    requires NoneShorter(s, lens, k, l)
    ensures NoneShorter(s, lens, k, l + 1)
    ensures FirstCode(lens, l + 1) == 2 * (FirstCode(lens, l) + Count(lens, l))
    ensures Offset(lens, l + 1, |lens|) == Offset(lens, l, |lens|) + Count(lens, l)
  {
    forall t: nat | Matches(s, lens, k, t)
      ensures lens[t] != l
    {
      if lens[t] == l { AmongGrows(lens, l, t, |lens|); }
    }
  }
}
