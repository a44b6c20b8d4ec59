/** Records of a binary workbook part: a whole-buffer reader and an incremental assembler. */
module Records {
  import opened Options
  import opened Sequences
  import opened BitReader

  datatype Rec = Rec(id: nat, data: seq<Byte>)

  // ----- one record -----

  /** A record type of one byte, or of two when the first has its high bit set. */
  function IdAt(b: seq<Byte>, i: nat): (r: Option<(nat, nat)>)
    ensures r.Some? ==> i < r.value.1 <= |b|
  {
    if i >= |b| then None
    else if b[i] < 128 then Some((b[i], i + 1))
    else if i + 1 >= |b| then None
    else Some((b[i] - 128 + 128 * (b[i + 1] as nat), i + 2))
  }

  datatype Size = Size(val: nat, next: nat, ended: bool)

  /** At most four bytes of seven bits, low ones first; ended when one has its high bit clear. */
  function SizeFrom(b: seq<Byte>, j: nat, c: nat, acc: nat, weight: nat): (r: Size)
    requires j <= |b| && c <= 4
    ensures j <= r.next <= |b| && (r.ended ==> j < r.next)
    decreases 4 - c
  {
    if c == 4 || j == |b| then Size(acc, j, false)
    else if b[j] < 128 then Size(acc + Scaled(weight, b[j]), j + 1, true)
    else SizeFrom(b, j + 1, c + 1, acc + Scaled(weight, b[j] - 128), 128 * weight)
  }

  function Scaled(weight: nat, x: nat): nat { weight * x }

  function SizeAt(b: seq<Byte>, j: nat): (r: Size)
    requires j <= |b|
    ensures j <= r.next <= |b| && (r.ended ==> j < r.next)
  {
    SizeFrom(b, j, 0, 0, 1)
  }

  /** What the assembler takes for a record at i: nothing until all of it is there. */
  function Complete(b: seq<Byte>, i: nat): (r: Option<(Rec, nat)>)
    ensures r.Some? ==> i < r.value.1 <= |b|
  {
    match IdAt(b, i)
    case None => None
    case Some((id, j)) =>
      var z := SizeAt(b, j);
      if !z.ended || z.next + z.val > |b| then None
      else Some((Rec(id, b[z.next..z.next + z.val]), z.next + z.val))
  }

  /** What the whole-buffer reader takes: it does not ask whether the size has ended. */
  function Taken(b: seq<Byte>, i: nat): (r: Option<(Rec, nat)>)
    ensures r.Some? ==> i < r.value.1 <= |b|
  {
    match IdAt(b, i)
    case None => None
    case Some((id, j)) =>
      var z := SizeAt(b, j);
      if z.next + z.val > |b| then None
      else Some((Rec(id, b[z.next..z.next + z.val]), z.next + z.val))
  }

  /** All complete records from i on, and where the first incomplete one starts. */
  function Assembled(b: seq<Byte>, i: nat): (r: (seq<Rec>, nat))
    requires i <= |b|
    ensures i <= r.1 <= |b| && Complete(b, r.1).None?
    decreases |b| - i
  {
    match Complete(b, i)
    case None => ([], i)
    case Some((rec, k)) =>
      var r := Assembled(b, k);
      ([rec] + r.0, r.1)
  }

  function AllTaken(b: seq<Byte>, i: nat): seq<Rec>
    requires i <= |b|
    decreases |b| - i
  {
    match Taken(b, i)
    case None => []
    case Some((rec, k)) => [rec] + AllTaken(b, k)
  }

  // ----- more input, and input cut off in front -----

  lemma {:induction false} SizeGrows(b: seq<Byte>, t: seq<Byte>, j: nat, c: nat, acc: nat, weight: nat)
    requires j <= |b| && c <= 4 && SizeFrom(b, j, c, acc, weight).ended
    ensures SizeFrom(b + t, j, c, acc, weight) == SizeFrom(b, j, c, acc, weight)
    decreases 4 - c
  {
    hide Scaled;
    if b[j] >= 128 { SizeGrows(b, t, j + 1, c + 1, acc + Scaled(weight, b[j] - 128), 128 * weight); }
  }

  /** A complete record stays what it is when more bytes follow. */
  lemma CompleteGrows(b: seq<Byte>, t: seq<Byte>, i: nat)
    requires Complete(b, i).Some?
    ensures Complete(b + t, i) == Complete(b, i)
  {
    var (id, j) := IdAt(b, i).value;
    assert IdAt(b + t, i) == Some((id, j));
    SizeGrows(b, t, j, 0, 0, 1);
    var z := SizeAt(b, j);
    assert (b + t)[z.next..z.next + z.val] == b[z.next..z.next + z.val];
  }

  lemma {:induction false} AssembledGrows(b: seq<Byte>, t: seq<Byte>, i: nat)
    requires i <= |b|
    ensures var r := Assembled(b, i);
      var s := Assembled(b + t, r.1);
      Assembled(b + t, i) == (r.0 + s.0, s.1)
    decreases |b| - i
  {
    hide Complete;
    var r := Assembled(b, i);
    var s := Assembled(b + t, r.1);
    if Complete(b, i).Some? {
      var (rec, k) := Complete(b, i).value;
      CompleteGrows(b, t, i);
      AssembledGrows(b, t, k);
      assert [rec] + (Assembled(b, k).0 + s.0) == ([rec] + Assembled(b, k).0) + s.0;
    } else {
      assert [] + s.0 == s.0;
    }
  }

  lemma {:induction false} SizeShifts(b: seq<Byte>, d: nat, j: nat, c: nat, acc: nat, weight: nat)
    requires d <= j <= |b| && c <= 4
    ensures var z := SizeFrom(b, j, c, acc, weight);
      SizeFrom(b[d..], j - d, c, acc, weight) == Size(z.val, z.next - d, z.ended)
    decreases 4 - c
  {
    hide Scaled;
    if c < 4 && j < |b| && b[j] >= 128 {
      SizeShifts(b, d, j + 1, c + 1, acc + Scaled(weight, b[j] - 128), 128 * weight);
    }
  }

  lemma IdShifts(b: seq<Byte>, d: nat, i: nat)
    requires d <= i <= |b|
    ensures match IdAt(b, i)
            case None => IdAt(b[d..], i - d) == None
            case Some((id, j)) => IdAt(b[d..], i - d).Some? && IdAt(b[d..], i - d).value == (id, j - d)
  {
  }

  lemma CompleteShifts(b: seq<Byte>, d: nat, i: nat)
    requires d <= i <= |b|
    ensures match Complete(b, i)
            case None => Complete(b[d..], i - d) == None
            case Some((rec, k)) => Complete(b[d..], i - d).Some? && Complete(b[d..], i - d).value == (rec, k - d)
  {
    hide SizeAt;
    hide IdAt;
    IdShifts(b, d, i);
    if IdAt(b, i).Some? {
      var (id, j) := IdAt(b, i).value;
      SizeAtShifts(b, d, j);
      var z := SizeAt(b, j);
      if z.next + z.val <= |b| { assert b[d..][z.next - d..z.next - d + z.val] == b[z.next..z.next + z.val]; }
    }
  }

  lemma SizeAtShifts(b: seq<Byte>, d: nat, j: nat)
    requires d <= j <= |b|
    ensures var z := SizeAt(b, j); SizeAt(b[d..], j - d) == Size(z.val, z.next - d, z.ended)
  {
    SizeShifts(b, d, j, 0, 0, 1);
  }

  lemma {:induction false} AssembledShifts(b: seq<Byte>, d: nat, i: nat)
    requires d <= i <= |b|
    ensures var r := Assembled(b, i); Assembled(b[d..], i - d) == (r.0, r.1 - d)
    decreases |b| - i
  {
    hide Complete;
    CompleteShifts(b, d, i);
    if Complete(b, i).Some? { AssembledShifts(b, d, Complete(b, i).value.1); }
  }

  // ----- the two readers -----

  method ReadSize(b: seq<Byte>, j: nat) returns (size: nat, k: nat, ended: bool)
    requires j <= |b|
    ensures Size(size, k, ended) == SizeAt(b, j)
  {
    hide Scaled;
    size, k, ended := 0, j, false;
    var weight: nat := 1;
    var c := 0;
    while c < 4 && k < |b|
      invariant 0 <= c <= 4 && j <= k <= |b| && SizeFrom(b, k, c, size, weight) == SizeAt(b, j)
    {
      var octet := b[k];
      k := k + 1;
      if octet < 128 {
        size := size + Scaled(weight, octet);
        ended := true;
        return;
      }
      size := size + Scaled(weight, octet - 128);
      weight := 128 * weight;
      c := c + 1;
    }
  }

  method ReadId(b: seq<Byte>, i: nat) returns (r: Option<(nat, nat)>)
    ensures r == IdAt(b, i)
  {
    if i >= |b| {
      return None;
    }
    var id: nat, j := b[i], i + 1;
    if id >= 128 {
      if j >= |b| {
        return None;
      }
      id := id - 128 + 128 * (b[j] as nat);
      j := j + 1;
    }
    r := Some((id, j));
  }

  method ReadRecords(b: seq<Byte>) returns (out: seq<Rec>)
    ensures out == AllTaken(b, 0)
  {
    hide IdAt;
    hide SizeAt;
    out := [];
    var i: nat := 0;
    while i < |b|
      invariant 0 <= i <= |b| && out + AllTaken(b, i) == AllTaken(b, 0)
    {
      var head := ReadId(b, i);
      if head.None? {
        break;
      }
      var (id, j) := head.value;
      var size, k, ended := ReadSize(b, j);
      if k + size > |b| {
        break;
      }
      var rec, next: nat := Rec(id, b[k..k + size]), k + size;
      assert Taken(b, i) == Some((rec, next));
      assert out + ([rec] + AllTaken(b, next)) == (out + [rec]) + AllTaken(b, next);
      out := out + [rec];
      i := next;
    }
    if i == |b| { TakenAtEnd(b); }
  }

  lemma TakenAtEnd(b: seq<Byte>)
    ensures AllTaken(b, |b|) == []
  {
  }

  lemma SliceOfSlice(s: seq<Byte>, d: nat, k: nat)
    requires d + k <= |s|
    ensures s[d..][k..] == s[d + k..]
  {
  }

  const COMPACT: nat := 0x10_0000

  class RecAsm {
    var buf: seq<Byte>
    var head: nat
    var out: seq<Rec>
    ghost var fed: seq<Byte>
    ghost var dropped: nat

    constructor ()
      ensures Valid() && fed == [] && out == []
    {
      buf, head, out, fed, dropped := [], 0, [], [], 0;
    }

    /** Emitted is what all input so far holds in complete records; the buffer has the rest. */
    ghost predicate Valid()
      reads this
    {
      && dropped <= |fed| && buf == fed[dropped..] && head <= |buf|
      && Assembled(fed, 0) == (out, dropped + head)
    }

    /** However the input is cut, what has been emitted depends only on all of it. */
    method Feed(p: seq<Byte>)
      requires Valid()
      modifies this
      ensures Valid() && fed == old(fed) + p
    {
      hide Assembled;
      AssembledGrows(fed, p, 0);
      fed := fed + p;
      buf := buf + p;
      assert buf == fed[dropped..];
      AssembledShifts(fed, dropped, dropped + head);
      Parse();
      if head > COMPACT {
        Compact();
      }
    }

    /** Dropping what has been parsed changes no record. */
    method Compact()
      requires Valid()
      modifies `buf, `head, `dropped
      ensures Valid()
    {
      hide Assembled;
      SliceOfSlice(fed, dropped, head);
      dropped := dropped + head;
      buf := buf[head..];
      head := 0;
    }

    method Parse()
      requires head <= |buf|
      modifies `head, `out
      ensures var r := Assembled(buf, old(head)); out == old(out) + r.0 && head == r.1
    {
      hide IdAt;
      hide SizeAt;
      ghost var whole := Assembled(buf, head);
      while true
        invariant head <= |buf|
        invariant var r := Assembled(buf, head); out + r.0 == old(out) + whole.0 && r.1 == whole.1
        decreases |buf| - head
      {
        var first := ReadId(buf, head);
        if first.None? {
          break;
        }
        var (id, j) := first.value;
        var size, k, ended := ReadSize(buf, j);
        if !ended || k + size > |buf| {
          break;
        }
        var rec, next: nat := Rec(id, buf[k..k + size]), k + size;
        assert Complete(buf, head) == Some((rec, next));
        ghost var r := Assembled(buf, next);
        assert out + ([rec] + r.0) == (out + [rec]) + r.0;
        out := out + [rec];
        head := next;
      }
    }
  }

  /** Fed in any pieces, the assembler emits what it would emit fed at once. */
  method Stream(chunks: seq<seq<Byte>>) returns (out: seq<Rec>)
    ensures out == Assembled(Flat(chunks), 0).0
  {
    var a := new RecAsm();
    for i := 0 to |chunks|
      invariant a.Valid() && fresh(a) && a.fed == Flat(chunks[..i])
    {
      assert chunks[..i + 1][..i] == chunks[..i];
      a.Feed(chunks[i]);
    }
    assert chunks[..|chunks|] == chunks;
    out := a.out;
  }

  // ----- when the two agree -----

  /** After the last complete record there stands a record type, and then a size that has not
      ended although what there is of it asks for no more bytes than there are. */
  predicate LooseEnd(b: seq<Byte>) {
    var i := Assembled(b, 0).1;
    match IdAt(b, i)
    case None => false
    case Some((_, j)) => var z := SizeAt(b, j); !z.ended && z.next + z.val <= |b|
  }

  lemma {:induction false} ReadersMeet(b: seq<Byte>, i: nat)
    requires i <= |b|
    ensures var r := Assembled(b, i); AllTaken(b, i) == r.0 + AllTaken(b, r.1)
    decreases |b| - i
  {
    match Complete(b, i)
    case None =>
    case Some((rec, k)) =>
      assert Taken(b, i) == Some((rec, k));
      ReadersMeet(b, k);
  }

  /** The whole-buffer reader returns what streaming emits, except at a loose end, where it
      returns more. */
  lemma ReadersAgreeExactly(b: seq<Byte>)
    ensures AllTaken(b, 0) == Assembled(b, 0).0 <==> !LooseEnd(b)
    ensures Assembled(b, 0).0 <= AllTaken(b, 0)
  {
    ReadersMeet(b, 0);
    var i := Assembled(b, 0).1;
    assert LooseEnd(b) <==> Taken(b, i).Some?;
  }

  /** A lone record type is such an end: one byte is read as an empty record. */
  lemma LoneType(id: Byte)
    requires id < 128
    ensures LooseEnd([id]) && AllTaken([id], 0) == [Rec(id, [])] && Assembled([id], 0).0 == []
  {
    assert Complete([id], 0) == None;
    assert SizeAt([id], 1) == Size(0, 1, false);
    assert IdAt([id], 0).Some? && IdAt([id], 0).value.1 == 1;
    assert [id][1..1 + 0] == [];
    assert Taken([id], 0) == Some((Rec(id, []), 1));
    assert AllTaken([id], 1) == [];
  }

  // ----- records written and read back -----

  predicate Storable(rec: Rec) { rec.id < 0x8000 && |rec.data| < 0x1000_0000 }

  /** One byte for a small type, else seven bits with a mark and eight more. */
  function TypeBytes(id: nat): seq<Byte>
    requires id < 0x8000
  {
    if id < 128 then [id] else [128 + id % 128, id / 128]
  }

  /** The digits of a size to the base 128, the least first, all but the last one marked. */
  function SizeBytes(n: nat): (r: seq<Byte>)
    ensures |r| > 0
  {
    if n < 128 then [n] else [128 + n % 128] + SizeBytes(n / 128)
  }

  function RecBytes(rec: Rec): seq<Byte>
    requires Storable(rec)
  {
    TypeBytes(rec.id) + SizeBytes(|rec.data|) + rec.data
  }

  function Written(recs: seq<Rec>): seq<Byte>
    requires forall i :: 0 <= i < |recs| ==> Storable(recs[i])
  {
    if |recs| == 0 then [] else RecBytes(recs[0]) + Written(recs[1..])
  }

  predicate Has(b: seq<Byte>, i: nat, part: seq<Byte>) { i + |part| <= |b| && b[i..i + |part|] == part }

  lemma HasParts(b: seq<Byte>, i: nat, p: seq<Byte>, q: seq<Byte>)
    requires Has(b, i, p + q)
    ensures Has(b, i, p) && Has(b, i + |p|, q)
  {
    assert b[i..i + |p|] == (p + q)[..|p|];
    assert b[i + |p|..i + |p| + |q|] == (p + q)[|p|..];
  }

  lemma HasOne(b: seq<Byte>, i: nat, p: seq<Byte>, k: nat)
    requires Has(b, i, p) && k < |p|
    ensures b[i + k] == p[k]
  {
    assert b[i..i + |p|][k] == b[i + k];
  }

  /** What the digits from the c-th on can say. */
  function Room(c: nat): nat {
    if c == 0 then 0x1000_0000 else if c == 1 then 0x20_0000 else if c == 2 then 0x4000 else 128
  }

  lemma Digits(weight: nat, n: nat)
    ensures Scaled(weight, n % 128) + Scaled(128 * weight, n / 128) == Scaled(weight, n)
  {
    assert n == n % 128 + 128 * (n / 128);
    assert weight * (128 * (n / 128)) == 128 * weight * (n / 128);
  }

  lemma {:induction false} SizeRead(b: seq<Byte>, j: nat, c: nat, acc: nat, weight: nat, n: nat)
    requires c < 4 && n < Room(c) && Has(b, j, SizeBytes(n))
    ensures SizeFrom(b, j, c, acc, weight) == Size(acc + Scaled(weight, n), j + |SizeBytes(n)|, true)
    decreases n
  {
    HasOne(b, j, SizeBytes(n), 0);
    if n >= 128 {
      HasParts(b, j, [128 + n % 128], SizeBytes(n / 128));
      Digits(weight, n);
      hide Scaled;
      SizeRead(b, j + 1, c + 1, acc + Scaled(weight, n % 128), 128 * weight, n / 128);
    }
  }

  lemma TypeRead(b: seq<Byte>, i: nat, id: nat)
    requires id < 0x8000 && Has(b, i, TypeBytes(id))
    ensures IdAt(b, i) == Some((id, i + |TypeBytes(id)|))
  {
    HasOne(b, i, TypeBytes(id), 0);
    if id >= 128 { HasOne(b, i, TypeBytes(id), 1); }
  }

  lemma RecParts(b: seq<Byte>, i: nat, rec: Rec)
    requires Storable(rec) && Has(b, i, RecBytes(rec))
    ensures var (j, k) := (i + |TypeBytes(rec.id)|, i + |TypeBytes(rec.id)| + |SizeBytes(|rec.data|)|);
      && Has(b, i, TypeBytes(rec.id)) && Has(b, j, SizeBytes(|rec.data|))
      && k + |rec.data| <= |b| && b[k..k + |rec.data|] == rec.data && k + |rec.data| == i + |RecBytes(rec)|
  {
    hide SizeBytes;
    hide TypeBytes;
    var (t, z) := (TypeBytes(rec.id), SizeBytes(|rec.data|));
    HasParts(b, i, t + z, rec.data);
    HasParts(b, i, t, z);
  }

  lemma SizeWhole(b: seq<Byte>, j: nat, n: nat)
    requires n < 0x1000_0000 && Has(b, j, SizeBytes(n))
    ensures j <= |b| && SizeAt(b, j) == Size(n, j + |SizeBytes(n)|, true)
  {
    SizeRead(b, j, 0, 0, 1, n);
    assert Scaled(1, n) == n;
  }

  lemma BothTake(b: seq<Byte>, i: nat, rec: Rec, j: nat, k: nat)
    requires IdAt(b, i) == Some((rec.id, j)) && j <= |b| && SizeAt(b, j) == Size(|rec.data|, k, true)
    requires k + |rec.data| <= |b| && b[k..k + |rec.data|] == rec.data
    ensures Complete(b, i) == Taken(b, i) == Some((rec, k + |rec.data|))
  {
    hide IdAt;
    hide SizeAt;
  }

  lemma RecRead(b: seq<Byte>, i: nat, rec: Rec)
    requires Storable(rec) && Has(b, i, RecBytes(rec))
    ensures Complete(b, i) == Taken(b, i) == Some((rec, i + |RecBytes(rec)|))
  {
    RecParts(b, i, rec);
    hide Has;
    hide IdAt;
    hide SizeAt;
    hide TypeBytes;
    hide SizeBytes;
    hide RecBytes;
    hide Complete;
    hide Taken;
    var j := i + |TypeBytes(rec.id)|;
    TypeRead(b, i, rec.id);
    SizeWhole(b, j, |rec.data|);
    BothTake(b, i, rec, j, j + |SizeBytes(|rec.data|)|);
  }

  lemma {:induction false} AllRead(b: seq<Byte>, i: nat, recs: seq<Rec>)
    requires (forall k :: 0 <= k < |recs| ==> Storable(recs[k])) && Has(b, i, Written(recs))
    requires i + |Written(recs)| == |b|
    ensures Assembled(b, i) == (recs, |b|) && AllTaken(b, i) == recs
    decreases |recs|
  {
    hide Complete;
    hide Taken;
    hide Storable;
    hide RecBytes;
    if |recs| == 0 {
      NothingLeft(b);
    } else {
      HasParts(b, i, RecBytes(recs[0]), Written(recs[1..]));
      RecRead(b, i, recs[0]);
      AllRead(b, i + |RecBytes(recs[0])|, recs[1..]);
      assert recs == [recs[0]] + recs[1..];
    }
  }

  lemma NothingLeft(b: seq<Byte>)
    ensures Complete(b, |b|) == None && Taken(b, |b|) == None
  {
  }

  /** Both readers give back the records that were written. */
  lemma WrittenRoundTrip(recs: seq<Rec>)
    requires forall k :: 0 <= k < |recs| ==> Storable(recs[k])
    ensures AllTaken(Written(recs), 0) == recs && Assembled(Written(recs), 0) == (recs, |Written(recs)|)
  {
    var b := Written(recs);
    assert b[0..0 + |b|] == b;
    AllRead(b, 0, recs);
  }
}
