/** DEFLATE (RFC 1951): blocks of literals and back-references over a circular window. */
module Inflate {
  import opened Options
  import opened Sequences
  import opened BitReader
  import opened Huffman

  // ----- tables -----

  const LBASE: seq<nat> := [3, 4, 5, 6, 7, 8, 9, 10, 11, 13, 15, 17, 19, 23, 27, 31,
                            35, 43, 51, 59, 67, 83, 99, 115, 131, 163, 195, 227, 258]

  const LEXT: seq<nat> := [0, 0, 0, 0, 0, 0, 0, 0, 1, 1, 1, 1, 2, 2, 2,
                           2, 3, 3, 3, 3, 4, 4, 4, 4, 5, 5, 5, 5, 0]

  const DBASE: seq<nat> := [1, 2, 3, 4, 5, 7, 9, 13, 17, 25, 33, 49, 65, 97, 129,
                            193, 257, 385, 513, 769, 1025, 1537, 2049, 3073, 4097,
                            6145, 8193, 12289, 16385, 24577]

  const DEXT: seq<nat> := [0, 0, 0, 0, 1, 1, 2, 2, 3, 3, 4, 4, 5, 5, 6,
                           6, 7, 7, 8, 8, 9, 9, 10, 10, 11, 11, 12, 12, 13, 13]

  const ORD: seq<nat> := [16, 17, 18, 0, 8, 7, 9, 6, 10, 5, 11, 4, 12, 3, 13, 2, 14, 1, 15]

  const WSZ: nat := 32768

  const CHUNK: nat := 65536

  function LengthBase(t: nat): nat
    requires t < 29
  {
    LBASE[t]
  }

  function LengthExtra(t: nat): nat
    requires t < 29
  {
    LEXT[t]
  }

  function DistanceBase(u: nat): nat
    requires u < 30
  {
    DBASE[u]
  }

  function DistanceExtra(u: nat): nat
    requires u < 30
  {
    DEXT[u]
  }

  lemma SmallPowers()
    ensures Pow2(0) == 1 && Pow2(1) == 2 && Pow2(2) == 4 && Pow2(3) == 8 && Pow2(4) == 16 && Pow2(5) == 32
    ensures Pow2(6) == 64 && Pow2(7) == 128 && Pow2(8) == 256 && Pow2(9) == 512 && Pow2(10) == 1024
    ensures Pow2(11) == 2048 && Pow2(12) == 4096 && Pow2(13) == 8192
  {
    assert Pow2(3) == 8 && Pow2(6) == 64 && Pow2(9) == 512 && Pow2(11) == 2048;
  }

  /** The distance codes cover 1 to 32768 without gap or overlap. */
  lemma DistanceTable(j: nat)
    requires j < 30
    ensures DistanceBase(0) == 1
    ensures DistanceBase(j) + Pow2(DistanceExtra(j)) == if j == 29 then WSZ + 1 else DistanceBase(j + 1)
  {
    hide Pow2;
    SmallPowers();
  }

  /** So do the length codes below the last, which stands for 258 alone. */
  lemma LengthTable(j: nat)
    requires j < 28
    ensures LBASE[0] == 3 && LBASE[28] == 258
    ensures LBASE[j] + Pow2(LEXT[j]) == if j == 27 then 259 else LBASE[j + 1]
  {
    hide Pow2;
    SmallPowers();
  }

  lemma {:induction false} DistanceBelow(j: nat)
    requires j < 30
    ensures 1 <= DistanceBase(j) && DistanceBase(j) + Pow2(DistanceExtra(j)) <= WSZ + 1
    decreases 30 - j
  {
    DistanceTable(j);
    if j < 29 { DistanceBelow(j + 1); }
  }

  // ----- LZ77 -----

  /** len bytes copied one by one from d back: what is written may be read again. */
  function Copied(h: seq<Byte>, d: nat, len: nat): (r: seq<Byte>)
    requires 1 <= d <= |h|
    ensures |r| == |h| + len && r[..|h|] == h
    ensures forall i :: |h| <= i < |r| ==> r[i] == r[i - d]
  {
    if len == 0 then h
    else
      var before := Copied(h, d, len - 1);
      before + [before[|before| - d]]
  }

  // ----- the circular window and the chunked sink -----

  /** w holds the last bytes of out, each at its position modulo the size of the window. */
  ghost predicate Ring(w: seq<Byte>, out: seq<Byte>) {
    |w| == WSZ && forall i :: 0 <= i < |out| && |out| - WSZ <= i ==> w[i % WSZ] == out[i]
  }

  lemma Nearby(i: nat, n: nat)
    requires i < n && n - WSZ <= i && i % WSZ == n % WSZ
    ensures i == n - WSZ
  {
  }

  lemma RingStep(w: seq<Byte>, out: seq<Byte>, x: Byte)
    requires Ring(w, out)
    ensures Ring(w[|out| % WSZ := x], out + [x])
  {
    var n := |out|;
    forall i | 0 <= i < n && n + 1 - WSZ <= i
      ensures i % WSZ != n % WSZ
    {
      if i % WSZ == n % WSZ { Nearby(i, n); }
    }
  }

  /** A byte at most a window back is still there. */
  lemma RingBack(w: seq<Byte>, out: seq<Byte>, d: nat)
    requires Ring(w, out) && 1 <= d <= |out| && d <= WSZ
    ensures w[(|out| % WSZ - d) % WSZ] == out[|out| - d]
  {
    Behind(|out|, d);
  }

  lemma RingSize(w: seq<Byte>, out: seq<Byte>)
    requires Ring(w, out)
    ensures |w| == WSZ
  {
  }

  predicate AllFull(chunks: seq<seq<Byte>>) { forall i :: 0 <= i < |chunks| ==> |chunks[i]| == 65536 }

  class Output {
    const window: array<Byte>
    var wpos: nat
    var produced: nat
    const chunk: array<Byte>
    var cn: nat
    var sunk: seq<seq<Byte>>
    ghost var out: seq<Byte>

    constructor ()
      ensures Valid() && out == [] && fresh(window) && fresh(chunk)
    {
      window := new Byte[WSZ];
      chunk := new Byte[CHUNK];
      wpos, produced, cn, sunk, out := 0, 0, 0, [], [];
    }

    /** The window holds the last 32768 bytes of all that came out; the sink and the chunk
        hold everything, the sink in full chunks. */
    ghost predicate Valid()
      reads this, window, chunk
    {
      && window.Length == WSZ && chunk.Length == CHUNK && window != chunk
      && produced == |out| && wpos == |out| % WSZ && cn < CHUNK
      && Ring(window[..], out)
      && Flat(sunk) + chunk[..cn] == out
      && AllFull(sunk)
    }

    method Flush()
      requires window.Length == WSZ && chunk.Length == CHUNK && cn <= CHUNK
      requires Flat(sunk) + chunk[..cn] == out
      modifies `cn, `sunk
      ensures cn == 0 && Flat(sunk) == out
      ensures sunk == if old(cn) > 0 then old(sunk) + [chunk[..old(cn)]] else old(sunk)
    {
      if cn > 0 {
        assert (sunk + [chunk[..cn]])[..|sunk|] == sunk;
        sunk := sunk + [chunk[..cn]];
        cn := 0;
      }
    }

    method PutWindow(octet: Byte)
      requires Ring(window[..], out) && wpos == |out| % WSZ
      modifies `wpos, window
      ensures Ring(window[..], out + [octet]) && wpos == (|out| + 1) % WSZ
    {
      hide Ring;
      RingStep(window[..], out, octet);
      RingSize(window[..], out);
      window[wpos] := octet;
      assert window[..] == old(window[..])[|out| % WSZ := octet];
      wpos := (wpos + 1) % WSZ;
    }

    method PutChunk(octet: Byte)
      requires window.Length == WSZ && chunk.Length == CHUNK && cn < CHUNK
      requires Flat(sunk) + chunk[..cn] == out && AllFull(sunk)
      modifies `cn, `sunk, `out, chunk
      ensures out == old(out) + [octet] && cn < CHUNK && Flat(sunk) + chunk[..cn] == out && AllFull(sunk)
    {
      hide Flat;
      ghost var before := chunk[..cn];
      chunk[cn] := octet;
      cn := cn + 1;
      out := out + [octet];
      assert chunk[..cn] == before + [octet];
      if cn == chunk.Length {
        Flush();
        assert chunk[..0] == [];
      }
    }

    method Emit(octet: Byte)
      requires Valid()
      modifies `wpos, `produced, `cn, `sunk, `out, window, chunk
      ensures Valid() && out == old(out) + [octet]
    {
      hide Flat;
      hide Ring;
      hide AllFull;
      PutWindow(octet);
      produced := produced + 1;
      PutChunk(octet);
    }

    method Reaches(d: nat) returns (r: bool)
      requires Valid()
      ensures r <==> d <= |out|
    {
      hide Flat;
      hide Ring;
      r := d <= produced;
    }

    /** The byte d back, where the window still has it. */
    method Back(d: nat) returns (x: Byte)
      requires Valid() && 1 <= d <= |out| && d <= WSZ
      ensures x == out[|out| - d]
    {
      hide Flat;
      RingBack(window[..], out, d);
      x := window[(wpos - d) % WSZ];
    }

    /** What a back-reference copies may include what it has just written. */
    method Copy(d: nat, len: nat)
      requires Valid() && 1 <= d <= |out| && d <= WSZ
      modifies `wpos, `produced, `cn, `sunk, `out, window, chunk
      ensures Valid() && out == Copied(old(out), d, len)
    {
      hide Valid;
      for i := 0 to len
        invariant Valid() && out == Copied(old(out), d, i)
      {
        var x := Back(d);
        Emit(x);
      }
    }
  }

  lemma Behind(n: nat, d: nat)
    requires d <= n
    ensures (n % WSZ - d) % WSZ == (n - d) % WSZ
  {
    assert n == WSZ * (n / WSZ) + n % WSZ;
    assert n - d == WSZ * (n / WSZ) + (n % WSZ - d);
    SameResidue(n % WSZ - d, n / WSZ);
  }

  lemma SameResidue(a: int, q: int)
    ensures (WSZ * q + a) % WSZ == a % WSZ
  {
  }

  // ----- what a stream of bits stands for -----

  /** The rest of a stream of which the first bits, up to an end, were given and all others are
      zero: read out, stopped after some output because it is corrupt or cut short, or endless
      because past the end one code gives output again and again. */
  datatype Run = Endless | Stopped(out: seq<Byte>) | Done(pos: nat, out: seq<Byte>)

  function AlignUp(k: nat): nat { (k + 7) / 8 * 8 }

  function BytesAt(s: Stream, k: nat, m: nat): (r: seq<Byte>)
    ensures |r| == m
  {
    if m == 0 then []
    else
      ByteBound(s, k + 8 * (m - 1));
      BytesAt(s, k, m - 1) + [BitsVal(s, k + 8 * (m - 1), 8)]
  }

  lemma ByteBound(s: Stream, k: nat)
    ensures BitsVal(s, k, 8) < 256
  {
    BitsValBound(s, k, 8);
    SmallPowers();
  }

  function Least(a: nat, b: nat): nat { if a < b then a else b }

  /** A stored block: a length, its complement unread, and that many bytes, or those there are. */
  function StoredBlock(s: Stream, end: nat, k: nat, out: seq<Byte>): (r: Run)
    ensures !r.Endless? && (r.Done? ==> k <= r.pos <= end)
  {
    var a := AlignUp(k);
    if a + 32 > end then Stopped(out)
    else
      var m := Least(BitsVal(s, a, 16), (end - a - 32) / 8);
      Done(a + 32 + 8 * m, out + BytesAt(s, a + 32, m))
  }

  /** What comes next in a compressed block. */
  datatype Item = BadCode | EndOfBlock(pos: nat) | Literal(octet: Byte, pos: nat)
                | Reference(len: nat, d: nat, pos: nat)

  /** A back-reference whose length symbol has been read. */
  ghost function ReferenceAt(s: Stream, dist: seq<nat>, k: nat, t: nat): (r: Item)
    requires t < 29
    ensures r.Reference? ==> 1 <= r.d <= WSZ && k < r.pos
    ensures !r.Literal? && !r.EndOfBlock?
  {
    var k1 := k + LengthExtra(t);
    match Symbol(s, dist, k1)
    case None => BadCode
    case Some(u) =>
      var k2 := k1 + dist[u];
      if u >= 30 then BadCode
      else
        DistanceRange(s, k2, u);
        Reference(LengthBase(t) + BitsVal(s, k, LengthExtra(t)),
                  DistanceBase(u) + BitsVal(s, k2, DistanceExtra(u)), k2 + DistanceExtra(u))
  }

  lemma DistanceRange(s: Stream, k: nat, u: nat)
    requires u < 30
    ensures 1 <= DistanceBase(u) + BitsVal(s, k, DistanceExtra(u)) <= WSZ
  {
    hide BitsVal;
    hide DistanceBase;
    hide DistanceExtra;
    BitsValBound(s, k, DistanceExtra(u));
    DistanceBelow(u);
  }

  ghost function ItemAt(s: Stream, lit: seq<nat>, dist: seq<nat>, k: nat): (r: Item)
    ensures r.EndOfBlock? || r.Literal? || r.Reference? ==> k < r.pos
    ensures r.Reference? ==> 1 <= r.d <= WSZ
  {
    match Symbol(s, lit, k)
    case None => BadCode
    case Some(t) =>
      if t < 256 then Literal(t, k + lit[t])
      else if t == 256 then EndOfBlock(k + lit[t])
      else if t - 257 >= 29 then BadCode
      else ReferenceAt(s, dist, k + lit[t], t - 257)
  }

  /** The output that an item adds, none when the block is over. */
  ghost function Grown(item: Item, out: seq<Byte>): (r: Option<seq<Byte>>)
    requires item.Reference? ==> item.d > 0
    ensures r.Some? ==> item.Literal? || item.Reference?
  {
    match item
    case Literal(octet, _) => Some(out + [octet])
    case Reference(len, d, _) => if d > |out| then None else Some(Copied(out, d, len))
    case _ => None
  }

  /** Literals and back-references up to the end-of-block code. Past the end every bit is zero,
      so that an item there which adds output comes again for ever. */
  ghost function Coded(s: Stream, end: nat, lit: seq<nat>, dist: seq<nat>, k: nat, out: seq<Byte>): (r: Run)
    ensures r.Done? ==> k <= r.pos
    decreases if k < end then end - k else 0
  {
    var item := ItemAt(s, lit, dist, k);
    match Grown(item, out)
    case None => if item.EndOfBlock? then Done(item.pos, out) else Stopped(out)
    case Some(more) => if k >= end then Endless else Coded(s, end, lit, dist, item.pos, more)
  }

  lemma CodedUnfolds(s: Stream, end: nat, lit: seq<nat>, dist: seq<nat>, k: nat, out: seq<Byte>)
    ensures Coded(s, end, lit, dist, k, out) ==
      match Symbol(s, lit, k)
      case None => Stopped(out)
      case Some(t) =>
        if t == 256 then Done(k + lit[t], out)
        else if t < 256 then
          if k >= end then Endless else Coded(s, end, lit, dist, k + lit[t], out + [t])
        else if t - 257 >= 29 then Stopped(out)
        else match ReferenceAt(s, dist, k + lit[t], t - 257)
          case Reference(len, d, pos) =>
            if d > |out| then Stopped(out)
            else if k >= end then Endless else Coded(s, end, lit, dist, pos, Copied(out, d, len))
          case _ => Stopped(out)
  {
    hide ReferenceAt;
  }

  datatype Tables = BadTables | Tables(lit: seq<nat>, dist: seq<nat>, pos: nat)

  function Constant(n: nat, v: nat): (r: seq<nat>)
    ensures |r| == n && forall i :: 0 <= i < n ==> r[i] == v
  {
    seq(n, _ => v)
  }

  /** Section 3.2.6 of RFC 1951. */
  function FixedLiterals(): (r: seq<nat>)
    ensures |r| == 288
  {
    Constant(144, 8) + Constant(112, 9) + Constant(24, 7) + Constant(8, 8)
  }

  function FixedDistances(): seq<nat> { Constant(30, 5) }

  function CodeLengthLens(s: Stream, k: nat, n: nat): (r: seq<nat>)
    requires n <= 19
    ensures |r| == 19
  {
    if n == 0 then Constant(19, 0)
    else CodeLengthLens(s, k, n - 1)[ORD[n - 1] := BitsVal(s, k + 3 * (n - 1), 3)]
  }

  datatype LengthRun = BadLengths | Lengths(lens: seq<nat>, pos: nat)

  /** Code lengths up to the number wanted, with the three ways to repeat. */
  ghost function LengthsFrom(s: Stream, cl: seq<nat>, k: nat, acc: seq<nat>, want: nat): (r: LengthRun)
    ensures r.Lengths? ==> |r.lens| >= want && r.pos >= k
    decreases want - |acc|
  {
    if |acc| >= want then Lengths(acc, k)
    else match Symbol(s, cl, k)
      case None => BadLengths
      case Some(t) =>
        var k1 := k + cl[t];
        if t < 16 then LengthsFrom(s, cl, k1, acc + [t], want)
        else if t == 16 then
          if |acc| == 0 then BadLengths
          else LengthsFrom(s, cl, k1 + 2, acc + Constant(BitsVal(s, k1, 2) + 3, acc[|acc| - 1]), want)
        else if t == 17 then LengthsFrom(s, cl, k1 + 3, acc + Constant(BitsVal(s, k1, 3) + 3, 0), want)
        else LengthsFrom(s, cl, k1 + 7, acc + Constant(BitsVal(s, k1, 7) + 11, 0), want)
  }

  ghost function DynamicTables(s: Stream, k: nat): (r: Tables)
    ensures r.Tables? ==> r.pos >= k
  {
    var hlit, hdist, hclen := BitsVal(s, k, 5) + 257, BitsVal(s, k + 5, 5) + 1, BitsVal(s, k + 10, 4) + 4;
    ClenBound(s, k + 10);
    match LengthsFrom(s, CodeLengthLens(s, k + 14, hclen), k + 14 + 3 * hclen, [], hlit + hdist)
    case BadLengths => BadTables
    case Lengths(lens, pos) => Tables(lens[..hlit], lens[hlit..hlit + hdist], pos)
  }

  lemma ClenBound(s: Stream, k: nat)
    ensures BitsVal(s, k, 4) + 4 <= 19
  {
    BitsValBound(s, k, 4);
    SmallPowers();
  }

  /** Blocks up to one marked last; none begins once a bit past the end was wanted. */
  ghost function Blocks(s: Stream, end: nat, k: nat, out: seq<Byte>): Run
    decreases end - k
  {
    if k > end then Stopped(out)
    else
      match Block(s, end, k + 3, BitsVal(s, k + 1, 2), out)
      case Endless => Endless
      case Stopped(o) => Stopped(o)
      case Done(k1, o) => if s(k) == 1 then Done(k1, o) else Blocks(s, end, k1, o)
  }

  /** One block after its header. */
  ghost function Block(s: Stream, end: nat, k: nat, kind: nat, out: seq<Byte>): (r: Run)
    ensures r.Done? ==> k <= r.pos
  {
    if kind == 0 then StoredBlock(s, end, k, out)
    else if kind == 1 then Coded(s, end, FixedLiterals(), FixedDistances(), k, out)
    else if kind == 2 then
      match DynamicTables(s, k)
      case BadTables => Stopped(out)
      case Tables(lit, dist, pos) => Coded(s, end, lit, dist, pos, out)
    else Stopped(out)
  }

  // ----- reading it -----

  lemma AlignedUp(k: nat, a: nat)
    requires k <= a < k + 8 && a % 8 == 0
    ensures a == AlignUp(k)
  {
  }

  lemma {:induction false} BitsValSplit(s: Stream, k: nat, m: nat, n: nat)
    ensures BitsVal(s, k, m + n) == BitsVal(s, k, m) + Pow2(m) * BitsVal(s, k + m, n)
    decreases m
  {
    if m > 0 {
      BitsValSplit(s, k + 1, m - 1, n);
      DoubleProduct(Pow2(m - 1), BitsVal(s, k + m, n));
    }
  }

  lemma DoubleProduct(p: nat, x: nat)
    ensures 2 * (p * x) == (2 * p) * x
  {
  }

  lemma OneByte(data: seq<Byte>, i: nat)
    requires i < |data|
    ensures BitsVal(BitsOf(data), 8 * i, 8) == data[i]
  {
    TailOfByte(data, i, 0);
  }

  /** A little-endian 16-bit number is the value of its 16 bits. */
  lemma TwoBytes(data: seq<Byte>, i: nat)
    requires i + 2 <= |data|
    ensures BitsVal(BitsOf(data), 8 * i, 16) == data[i] as nat + 256 * data[i + 1] as nat
  {
    hide BitsVal;
    hide Pow2;
    BitsValSplit(BitsOf(data), 8 * i, 8, 8);
    OneByte(data, i);
    OneByte(data, i + 1);
    assert 8 * i + 8 == 8 * (i + 1);
    SmallPowers();
  }

  /** What a reader reports that followed a run. */
  ghost predicate Followed(run: Run, ok: bool, at: nat, out: seq<Byte>) {
    match run
    case Endless => false
    case Stopped(o) => !ok && out == o
    case Done(pos, o) => ok && at == pos && out == o
  }

  method ReadStored(b: Bits, o: Output) returns (ok: bool)
    requires b.Valid() && o.Valid()
    modifies b`pos, b`cnt, b`at, o, o.window, o.chunk
    ensures b.Valid() && o.Valid()
    ensures Followed(StoredBlock(BitsOf(b.p), b.End(), old(b.at), old(o.out)), ok, b.at, o.out)
  {
    hide o.Valid;
    hide BitsVal;
    b.Align();
    ghost var a := b.at;
    if b.pos + 4 > |b.p| {
      return false;
    }
    AlignedUp(old(b.at), a);
    TwoBytes(b.p, b.pos);
    var low: nat, high: nat := b.p[b.pos], b.p[b.pos + 1];
    var len := low + 256 * high;
    b.pos := b.pos + 4;
    b.at := a + 32;
    var i := 0;
    while i < len && b.pos < |b.p|
      invariant b.Valid() && o.Valid() && b.cnt == 0 && 0 <= i <= len && b.at == 8 * b.pos == a + 32 + 8 * i
      invariant o.out == old(o.out) + BytesAt(BitsOf(b.p), a + 32, i)
    {
      OneByte(b.p, b.pos);
      o.Emit(b.p[b.pos]);
      b.pos := b.pos + 1;
      b.at := b.at + 8;
      i := i + 1;
    }
    ok := true;
  }

  /** The length and the distance of a back-reference. */
  method ReadReference(b: Bits, dist: Huff, ghost distLens: seq<nat>, t: nat) returns (ok: bool, len: nat, d: nat)
    requires b.Valid() && dist.Table(distLens) && t < 29
    modifies b
    ensures b.Valid() && b.bad == (old(b.bad) || b.at > b.End())
    ensures match ReferenceAt(BitsOf(b.p), distLens, old(b.at), t)
            case BadCode => !ok
            case Reference(l, dd, pos) => ok && len == l && d == dd && b.at == pos
  {
    hide BitsVal;
    hide b.Valid;
    hide dist.Table;
    hide LengthBase;
    hide LengthExtra;
    hide DistanceBase;
    hide DistanceExtra;
    hide MaxLen;
    hide Matches;
    len := b.Read(LengthExtra(t));
    len := LengthBase(t) + len;
    var u := dist.Decode(b, distLens);
    if u < 0 || u >= 30 {
      return false, len, 0;
    }
    d := b.Read(DistanceExtra(u));
    d := DistanceBase(u) + d;
    ok := true;
  }

  /** Symbols up to the end of the block; a symbol that is none, or refers too far back, marks
      the stream bad. */
  method ReadCoded(b: Bits, lit: Huff, ghost litLens: seq<nat>, dist: Huff, ghost distLens: seq<nat>, o: Output)
    returns (ok: bool)
    requires b.Valid() && o.Valid() && lit.Table(litLens) && dist.Table(distLens)
    requires !Coded(BitsOf(b.p), b.End(), litLens, distLens, b.at, o.out).Endless?
    modifies b, o, o.window, o.chunk
    ensures b.Valid() && o.Valid() && (ok ==> b.bad == (old(b.bad) || b.at > b.End()))
    ensures Followed(Coded(BitsOf(b.p), b.End(), litLens, distLens, old(b.at), old(o.out)), ok, b.at, o.out)
  {
    hide b.Valid;
    hide o.Valid;
    hide lit.Table;
    hide ReferenceAt;
    hide MaxLen;
    hide Matches;
    hide Coded;
    ghost var run := Coded(BitsOf(b.p), b.End(), litLens, distLens, b.at, o.out);
    b.PastEnd();
    while true
      invariant b.Valid() && o.Valid() && b.bad == (old(b.bad) || b.at > b.End())
      invariant lit.Table(litLens) && dist.Table(distLens)
      invariant Coded(BitsOf(b.p), b.End(), litLens, distLens, b.at, o.out) == run
      decreases b.End() - b.at
    {
      CodedUnfolds(BitsOf(b.p), b.End(), litLens, distLens, b.at, o.out);
      var t := lit.Decode(b, litLens);
      if t < 0 {
        b.Spoil();
        return false;
      }
      if t == 256 {
        return true;
      }
      if t < 256 {
        o.Emit(t);
      } else {
        if t - 257 >= 29 {
          b.Spoil();
          return false;
        }
        var len, d;
        ok, len, d := ReadReference(b, dist, distLens, t - 257);
        if !ok {
          b.Spoil();
          return false;
        }
        ok := o.Reaches(d);
        if !ok {
          b.Spoil();
          return false;
        }
        o.Copy(d, len);
      }
    }
  }

  // ----- code tables -----

  method Fill(lens: seq<nat>, from: nat, to: nat, v: nat) returns (r: seq<nat>)
    requires from <= to <= |lens|
    ensures r == lens[..from] + Constant(to - from, v) + lens[to..]
  {
    r := lens;
    for i := from to to
      invariant |r| == |lens| && r[..from] == lens[..from] && r[i..] == lens[i..]
      invariant forall j :: from <= j < i ==> r[j] == v
    {
      r := r[i := v];
    }
    assert r[from..to] == Constant(to - from, v);
    assert r == r[..from] + r[from..to] + r[to..];
  }

  method FixedHuff(lit: Huff, dist: Huff)
    requires lit != dist
    modifies lit, dist
    ensures lit.Table(FixedLiterals()) && dist.Table(FixedDistances())
  {
    hide lit.Table;
    var ll: seq<nat> := seq(288, _ => 0);
    ll := Fill(ll, 0, 144, 8);
    ll := Fill(ll, 144, 256, 9);
    ll := Fill(ll, 256, 280, 7);
    ll := Fill(ll, 280, 288, 8);
    assert ll == FixedLiterals();
    lit.Build(ll);
    dist.Build(FixedDistances());
  }

  method Repeat(lens: seq<nat>, n: nat, v: nat) returns (r: seq<nat>)
    ensures r == lens + Constant(n, v)
  {
    r := lens;
    var left: nat := n;
    while left > 0
      invariant left <= n && r == lens + Constant(n - left, v)
    {
      assert Constant(n - left + 1, v) == Constant(n - left, v) + [v];
      r := r + [v];
      left := left - 1;
    }
  }

  /** Code lengths in their own code, with the three ways to repeat. */
  method ReadLengths(b: Bits, clh: Huff, ghost cl: seq<nat>, want: nat) returns (ok: bool, lens: seq<nat>)
    requires b.Valid() && clh.Table(cl)
    modifies b
    ensures b.Valid() && b.bad == (old(b.bad) || b.at > b.End()) && b.at >= old(b.at)
    ensures match LengthsFrom(BitsOf(b.p), cl, old(b.at), [], want)
            case BadLengths => !ok
            case Lengths(ls, pos) => ok && lens == ls && b.at == pos
  {
    hide b.Valid;
    hide clh.Table;
    hide BitsVal;
    hide MaxLen;
    hide Matches;
    ghost var run := LengthsFrom(BitsOf(b.p), cl, b.at, [], want);
    b.PastEnd();
    lens := [];
    while |lens| < want
      invariant b.Valid() && b.bad == (old(b.bad) || b.at > b.End()) && b.at >= old(b.at) && clh.Table(cl)
      invariant LengthsFrom(BitsOf(b.p), cl, b.at, lens, want) == run
      decreases want - |lens|
    {
      var t := clh.Decode(b, cl);
      if t < 0 {
        return false, lens;
      }
      if t < 16 {
        lens := lens + [t];
      } else if t == 16 {
        var r := b.Read(2);
        if |lens| == 0 {
          return false, lens;
        }
        lens := Repeat(lens, r + 3, lens[|lens| - 1]);
      } else if t == 17 {
        var r := b.Read(3);
        lens := Repeat(lens, r + 3, 0);
      } else {
        var r := b.Read(7);
        lens := Repeat(lens, r + 11, 0);
      }
    }
    ok := true;
  }

  method ReadCodeLengthLens(b: Bits, n: nat) returns (cl: seq<nat>)
    requires b.Valid() && n <= 19
    modifies b
    ensures b.Valid() && b.bad == (old(b.bad) || b.at > b.End()) && b.at == old(b.at) + 3 * n
    ensures cl == CodeLengthLens(BitsOf(b.p), old(b.at), n)
  {
    hide b.Valid;
    hide BitsVal;
    cl := seq(19, _ => 0);
    b.PastEnd();
    for i := 0 to n
      invariant b.Valid() && b.bad == (old(b.bad) || b.at > b.End()) && b.at == old(b.at) + 3 * i
      invariant cl == CodeLengthLens(BitsOf(b.p), old(b.at), i)
    {
      var v := b.Read(3);
      cl := cl[ORD[i] := v];
    }
  }

  method DynamicHuff(b: Bits, lit: Huff, dist: Huff)
    returns (ok: bool, ghost litLens: seq<nat>, ghost distLens: seq<nat>)
    requires b.Valid() && lit != dist
    modifies b, lit, dist
    ensures b.Valid() && b.bad == (old(b.bad) || b.at > b.End())
    ensures match DynamicTables(BitsOf(b.p), old(b.at))
            case BadTables => !ok
            case Tables(l, d, pos) =>
              ok && litLens == l && distLens == d && b.at == pos && lit.Table(l) && dist.Table(d)
  {
    hide b.Valid;
    hide lit.Table;
    hide BitsVal;
    hide CodeLengthLens;
    hide LengthsFrom;
    litLens, distLens := [], [];
    ghost var k := b.at;
    var hlit := b.Read(5);
    var hdist := b.Read(5);
    var hclen := b.Read(4);
    ClenBound(BitsOf(b.p), k + 10);
    var cl := ReadCodeLengthLens(b, hclen + 4);
    var clh := new Huff();
    clh.Build(cl);
    var lens;
    ok, lens := ReadLengths(b, clh, cl, hlit + 257 + hdist + 1);
    if !ok {
      return;
    }
    litLens, distLens := lens[..hlit + 257], lens[hlit + 257..hlit + 257 + hdist + 1];
    lit.Build(lens[..hlit + 257]);
    dist.Build(lens[hlit + 257..hlit + 257 + hdist + 1]);
  }

  // ----- blocks -----

  method ReadBlock(b: Bits, kind: nat, o: Output) returns (ok: bool)
    requires b.Valid() && o.Valid() && !Block(BitsOf(b.p), b.End(), b.at, kind, o.out).Endless?
    modifies b, o, o.window, o.chunk
    ensures b.Valid() && o.Valid() && (ok ==> b.bad == (old(b.bad) || b.at > b.End()))
    ensures Followed(Block(BitsOf(b.p), b.End(), old(b.at), kind, old(o.out)), ok, b.at, o.out)
  {
    hide b.Valid;
    hide o.Valid;
    hide StoredBlock;
    hide Coded;
    hide DynamicTables;
    if kind == 0 {
      ok := ReadStored(b, o);
    } else if kind == 1 {
      var lit := new Huff();
      var dist := new Huff();
      FixedHuff(lit, dist);
      ok := ReadCoded(b, lit, FixedLiterals(), dist, FixedDistances(), o);
    } else if kind == 2 {
      var lit := new Huff();
      var dist := new Huff();
      ghost var litLens, distLens;
      ok, litLens, distLens := DynamicHuff(b, lit, dist);
      if ok {
        ok := ReadCoded(b, lit, litLens, dist, distLens, o);
      }
    } else {
      ok := false;
    }
  }

  function OutputOf(run: Run): seq<Byte>
    requires !run.Endless?
  {
    run.out
  }

  ghost function Inflated(data: seq<Byte>): Run { Blocks(BitsOf(data), 8 * |data|, 0, []) }

  /** Chunks of 65536 bytes, and a last one that is not empty. */
  predicate Chunked(chunks: seq<seq<Byte>>) {
    |chunks| > 0 ==> AllFull(chunks[..|chunks| - 1]) && 0 < |chunks[|chunks| - 1]| <= 65536
  }

  /** The chunks given to the sink are, end to end, what the stream stands for. */
  method InflateTo(data: seq<Byte>) returns (chunks: seq<seq<Byte>>)
    requires !Inflated(data).Endless?
    ensures Flat(chunks) == OutputOf(Inflated(data)) && Chunked(chunks)
  {
    hide Flat;
    hide Ring;
    hide Block;
    hide BitsVal;
    var b := new Bits(data);
    var o := new Output();
    while !b.bad
      invariant b.Valid() && o.Valid() && b.p == data && fresh(b) && fresh(o) && fresh(o.window) && fresh(o.chunk)
      invariant b.bad == (b.at > b.End()) && Blocks(BitsOf(data), b.End(), b.at, o.out) == Inflated(data)
      decreases b.End() - b.at
    {
      var last := b.ReadBit();
      var kind := b.Read(2);
      var ok := ReadBlock(b, kind, o);
      if !ok || last == 1 {
        assert o.out == OutputOf(Inflated(data));
        break;
      }
    }
    o.Flush();
    chunks := o.sunk;
  }

  /** The whole output at once. */
  method InflateAll(data: seq<Byte>) returns (out: seq<Byte>)
    requires !Inflated(data).Endless?
    ensures out == OutputOf(Inflated(data))
  {
    var chunks := InflateTo(data);
    out := [];
    for i := 0 to |chunks|
      invariant out == Flat(chunks[..i])
    {
      assert chunks[..i + 1][..i] == chunks[..i];
      out := out + chunks[i];
    }
    assert chunks[..|chunks|] == chunks;
  }

  // ----- when decoding does not end -----

  ghost predicate Ended(s: Stream, end: nat) { forall k: nat :: k >= end ==> s(k) == 0 }

  /** Position and output after n items of a block, if the block has so many. */
  ghost function Items(s: Stream, lit: seq<nat>, dist: seq<nat>, k: nat, out: seq<Byte>, n: nat)
    : Option<(nat, seq<Byte>)>
    decreases n
  {
    if n == 0 then Some((k, out))
    else
      var item := ItemAt(s, lit, dist, k);
      match Grown(item, out)
      case None => None
      case Some(more) => Items(s, lit, dist, item.pos, more, n - 1)
  }

  lemma {:induction false} ZeroBits(s: Stream, end: nat, k: nat, n: nat)
    requires Ended(s, end) && k >= end
    ensures Prefix(s, k, n) == 0 && BitsVal(s, k, n) == 0
    decreases n
  {
    if n > 0 {
      ZeroBits(s, end, k, n - 1);
      ZeroBits(s, end, k + 1, n - 1);
    }
  }

  lemma SameSymbol(s: Stream, end: nat, lens: seq<nat>, k: nat, j: nat)
    requires Ended(s, end) && k >= end && j >= end
    ensures Symbol(s, lens, k) == Symbol(s, lens, j)
  {
    hide Prefix;
    forall t: nat
      ensures Matches(s, lens, k, t) <==> Matches(s, lens, j, t)
    {
      if Huffman.Coded(lens, t) {
        ZeroBits(s, end, k, lens[t]);
        ZeroBits(s, end, j, lens[t]);
      }
    }
    hide Matches;
    var (x, y) := (Symbol(s, lens, k), Symbol(s, lens, j));
    if x.Some? && y.Some? { MatchUnique(s, lens, k, x.value, y.value); }
  }

  /** Past the end the same item comes wherever one looks. */
  ghost predicate SameItem(x: Item, y: Item) {
    match x
    case BadCode => y.BadCode?
    case EndOfBlock(_) => y.EndOfBlock?
    case Literal(octet, _) => y.Literal? && y.octet == octet
    case Reference(len, d, _) => y.Reference? && y.len == len && y.d == d
  }

  lemma SameReference(s: Stream, end: nat, dist: seq<nat>, k: nat, j: nat, t: nat)
    requires Ended(s, end) && k >= end && j >= end && t < 29
    ensures SameItem(ReferenceAt(s, dist, k, t), ReferenceAt(s, dist, j, t))
  {
    hide BitsVal;
    hide LengthBase;
    hide LengthExtra;
    hide DistanceBase;
    hide DistanceExtra;
    var (k1, j1) := (k + LengthExtra(t), j + LengthExtra(t));
    ZeroBits(s, end, k, LengthExtra(t));
    ZeroBits(s, end, j, LengthExtra(t));
    SameSymbol(s, end, dist, k1, j1);
    match Symbol(s, dist, k1)
    case None =>
    case Some(u) =>
      if u < 30 {
        ZeroBits(s, end, k1 + dist[u], DistanceExtra(u));
        ZeroBits(s, end, j1 + dist[u], DistanceExtra(u));
      }
  }

  lemma PastEndSame(s: Stream, end: nat, lit: seq<nat>, dist: seq<nat>, k: nat, j: nat)
    requires Ended(s, end) && k >= end && j >= end
    ensures SameItem(ItemAt(s, lit, dist, k), ItemAt(s, lit, dist, j))
  {
    hide ReferenceAt;
    SameSymbol(s, end, lit, k, j);
    match Symbol(s, lit, k)
    case None =>
    case Some(t) => if 257 <= t < 286 { SameReference(s, end, dist, k + lit[t], j + lit[t], t - 257); }
  }

  /** An endless run takes as many items as one likes. */
  lemma {:induction false} EndlessTakes(s: Stream, end: nat, lit: seq<nat>, dist: seq<nat>, k: nat, out: seq<Byte>,
                                        n: nat)
    requires Ended(s, end) && Coded(s, end, lit, dist, k, out).Endless?
    ensures Items(s, lit, dist, k, out, n).Some?
    decreases n
  {
    hide ItemAt;
    if n > 0 {
      var item := ItemAt(s, lit, dist, k);
      var more := Grown(item, out).value;
      if k >= end { PastEndSame(s, end, lit, dist, k, item.pos); }
      EndlessTakes(s, end, lit, dist, item.pos, more, n - 1);
    }
  }

  /** Any other run takes only so many. */
  lemma {:induction false} OtherwiseStops(s: Stream, end: nat, lit: seq<nat>, dist: seq<nat>, k: nat, out: seq<Byte>)
    returns (n: nat)
    requires !Coded(s, end, lit, dist, k, out).Endless?
    ensures Items(s, lit, dist, k, out, n).None?
    decreases if k < end then end - k else 0
  {
    hide ItemAt;
    var item := ItemAt(s, lit, dist, k);
    match Grown(item, out)
    case None => n := 1;
    case Some(more) =>
      var m := OtherwiseStops(s, end, lit, dist, item.pos, more);
      n := m + 1;
  }

  /** A block is endless exactly when decoding it takes one item after the other for ever. */
  lemma EndlessExactly(s: Stream, end: nat, lit: seq<nat>, dist: seq<nat>, k: nat, out: seq<Byte>)
    requires Ended(s, end)
    ensures Coded(s, end, lit, dist, k, out).Endless? <==> forall n :: Items(s, lit, dist, k, out, n).Some?
  {
    hide Coded;
    hide Items;
    if Coded(s, end, lit, dist, k, out).Endless? {
      forall n
        ensures Items(s, lit, dist, k, out, n).Some?
      {
        EndlessTakes(s, end, lit, dist, k, out, n);
      }
    } else {
      var n := OtherwiseStops(s, end, lit, dist, k, out);
    }
  }

  lemma {:induction false} AmongNone(lens: seq<nat>, l: nat, n: nat)
    requires n <= |lens| && forall i :: 0 <= i < n ==> lens[i] != l
    ensures Among(lens, l, n) == 0
  {
    if n > 0 { AmongNone(lens, l, n - 1); }
  }

  lemma {:induction false} NoShortCode(lens: seq<nat>, l: nat)
    requires forall i :: 0 <= i < |lens| ==> lens[i] >= l
    ensures FirstCode(lens, l) == 0
  {
    if l > 0 {
      NoShortCode(lens, l - 1);
      if l > 1 { AmongNone(lens, l - 1, |lens|); }
    }
  }

  /** In the fixed code zeros are the end of the block, so its blocks end even when cut short. */
  lemma {:induction false} FixedEnds(s: Stream, end: nat, k: nat, out: seq<Byte>)
    requires Ended(s, end)
    ensures !Coded(s, end, FixedLiterals(), FixedDistances(), k, out).Endless?
    decreases if k < end then end - k else 0
  {
    hide ItemAt;
    hide FixedLiterals;
    hide FixedDistances;
    var (lit, dist) := (FixedLiterals(), FixedDistances());
    if k >= end {
      FixedZero(s, end, k);
    } else {
      var item := ItemAt(s, lit, dist, k);
      match Grown(item, out)
      case None =>
      case Some(more) => FixedEnds(s, end, item.pos, more);
    }
  }

  lemma FixedZero(s: Stream, end: nat, k: nat)
    requires Ended(s, end) && k >= end
    ensures ItemAt(s, FixedLiterals(), FixedDistances(), k).EndOfBlock?
  {
    var lit := FixedLiterals();
    assert lit[256] == 7 && forall i :: 0 <= i < |lit| ==> lit[i] >= 7;
    assert forall i :: 0 <= i < 256 ==> lit[i] != 7;
    hide FixedLiterals;
    NoShortCode(lit, 7);
    AmongNone(lit, 7, 256);
    ZeroBits(s, end, k, 7);
    hide Prefix;
    assert Matches(s, lit, k, 256);
    MatchUnique(s, lit, k, 256, Symbol(s, lit, k).value);
  }

  /** With one literal alone in the code, a block without an end goes on for ever. */
  lemma LoneLiteral(s: Stream, end: nat, k: nat, out: seq<Byte>)
    requires Ended(s, end) && k >= end
    ensures Coded(s, end, [1], [], k, out).Endless?
  {
    var lit: seq<nat> := [1];
    NoShortCode(lit, 1);
    AmongNone(lit, 1, 0);
    ZeroBits(s, end, k, 1);
    hide Prefix;
    assert Matches(s, lit, k, 0);
    MatchUnique(s, lit, k, 0, Symbol(s, lit, k).value);
  }
}
