/** A bounded cache of evaluations, kept in order of recency. */
module EvalCache {
  import opened Options

  datatype Key = Key(text: string)

  /** What is kept for a key: the result, and what it was computed from. */
  datatype Slot<E> = Slot(entry: E, progHash: string, syms: set<string>)

  datatype Item<E> = Item(key: Key, slot: Slot<E>)

  // ----- the specification: a list, most recent first -----

  /** Where k is listed, or the length when it is not. */
  function IndexOf<E>(l: seq<Item<E>>, k: Key, i: nat): (r: nat)
    requires i <= |l|
    ensures i <= r <= |l| && (r < |l| ==> l[r].key == k)
    ensures forall j :: i <= j < r ==> l[j].key != k
    decreases |l| - i
  {
    if i == |l| || l[i].key == k then i else IndexOf(l, k, i + 1)
  }

  function Cut<T>(l: seq<T>, i: nat): seq<T> { if i < |l| then l[..i] + l[i + 1..] else l }

  function Fronted<E>(l: seq<Item<E>>, k: Key, slot: Slot<E>): seq<Item<E>> {
    [Item(k, slot)] + Cut(l, IndexOf(l, k, 0))
  }

  function Bounded<E>(l: seq<Item<E>>, limit: nat): seq<Item<E>> {
    if |l| > limit then l[..limit] else l
  }

  function Kept<E>(l: seq<Item<E>>, stale: Slot<E> -> bool): seq<Item<E>> {
    if |l| == 0 then []
    else if stale(l[0].slot) then Kept(l[1..], stale)
    else [l[0]] + Kept(l[1..], stale)
  }

  predicate Distinct<E>(l: seq<Item<E>>) {
    forall i, j :: 0 <= i < j < |l| ==> l[i].key != l[j].key
  }

  class EvalCache<E> {
    var cache: map<Key, Slot<E>>
    var lru: seq<Key>
    var limit: nat
    ghost var items: seq<Item<E>>

    constructor ()
      ensures Valid() && items == [] && limit == 10000
    {
      cache, lru, limit, items := map[], [], 10000, [];
    }

    /** The recency list has the keys of the map, each once. */
    ghost predicate Valid()
      reads `cache, `lru, `items
    {
      && |lru| == |items| && Distinct(items)
      && (forall i :: 0 <= i < |items| ==> Held(i))
      && forall k :: k in cache ==> IndexOf(items, k, 0) < |items|
    }

    ghost predicate Held(i: nat)
      requires i < |items| == |lru|
      reads `cache, `lru, `items
    {
      lru[i] == items[i].key && lru[i] in cache && cache[lru[i]] == items[i].slot
    }

    method Find(k: Key) returns (i: nat)
      requires Valid()
      ensures i == IndexOf(items, k, 0)
    {
      i := 0;
      while i < |lru| && lru[i] != k
        invariant i <= |lru| && IndexOf(items, k, i) == IndexOf(items, k, 0)
      {
        assert Held(i);
        i := i + 1;
      }
      if i < |lru| { assert Held(i); }
    }

    /** The key at i leaves the list and the map. */
    method Remove(i: nat)
      requires Valid() && i < |lru|
      modifies `cache, `lru, `items
      ensures Valid() && items == Cut(old(items), i) && cache == old(cache) - {old(lru)[i]} && |lru| == |items|
    {
      ghost var before := items;
      assert Held(i);
      cache := cache - {lru[i]};
      lru := Cut(lru, i);
      items := Cut(items, i);
      forall j | 0 <= j < |items|
        ensures Held(j)
      {
        assert old(Held(if j < i then j else j + 1));
      }
      forall k | k in cache
        ensures IndexOf(items, k, 0) < |items|
      {
        var p := IndexOf(before, k, 0);
        Present(items, k, if p < i then p else p - 1);
      }
    }

    /** A key that is not listed is listed first. */
    method Push(k: Key, slot: Slot<E>)
      requires Valid() && k !in cache
      modifies `cache, `lru, `items
      ensures Valid() && items == [Item(k, slot)] + old(items) && cache == old(cache)[k := slot]
    {
      forall i | 0 <= i < |items|
        ensures items[i].key != k
      {
        assert Held(i);
      }
      ghost var before := items;
      cache := cache[k := slot];
      lru := [k] + lru;
      items := [Item(k, slot)] + items;
      forall j | 0 <= j < |items|
        ensures Held(j)
      {
        if j > 0 { assert old(Held(j - 1)); }
      }
      forall x | x in cache
        ensures IndexOf(items, x, 0) < |items|
      {
        Present(items, x, if x == k then 0 else IndexOf(before, x, 0) + 1);
      }
    }

    /** A hit moves to the front and changes nothing else; a miss changes nothing. */
    method Get(k: Key) returns (r: Option<E>)
      requires Valid()
      modifies `cache, `lru, `items
      ensures Valid()
      ensures var i := IndexOf(old(items), k, 0);
        if i == |old(items)| then r == None && items == old(items)
        else r == Some(old(items)[i].slot.entry) && items == Fronted(old(items), k, old(items)[i].slot)
    {
      var i := Find(k);
      assert i < |items| ==> Held(i);
      if k !in cache {
        return None;
      }
      var slot := cache[k];
      Remove(i);
      Push(k, slot);
      r := Some(slot.entry);
    }

    /** The least recently used keys go until the limit is met. */
    method Evict()
      requires Valid()
      modifies `cache, `lru, `items
      ensures Valid() && items == Bounded(old(items), limit)
    {
      while |lru| > limit
        invariant Valid() && items <= old(items) && (|items| < |old(items)| ==> |items| >= limit)
        decreases |lru|
      {
        Remove(|lru| - 1);
      }
    }

    method Put(k: Key, slot: Slot<E>)
      requires Valid()
      modifies `cache, `lru, `items
      ensures Valid() && items == Bounded(Fronted(old(items), k, slot), limit)
    {
      var i := Find(k);
      assert i < |items| ==> Held(i);
      if k in cache {
        Remove(i);
      }
      Push(k, slot);
      Evict();
    }

    method SetLimit(n: nat)
      requires Valid()
      modifies this
      ensures Valid() && limit == n && items == Bounded(old(items), n)
    {
      limit := n;
      Evict();
    }

    method SlotAt(i: nat) returns (s: Slot<E>)
      requires Valid() && i < |lru|
      ensures |lru| == |items| && s == items[i].slot
    {
      assert Held(i);
      s := cache[lru[i]];
    }

    /** What is stale goes, the rest keeps its order. */
    method Purge(stale: Slot<E> -> bool)
      requires Valid()
      modifies `cache, `lru, `items
      ensures Valid() && items == Kept(old(items), stale)
    {
      assert |lru| == |items|;
      hide Valid;
      hide Held;
      hide Kept;
      hide Cut;
      var i := 0;
      while i < |lru|
        invariant 0 <= i <= |lru| == |items| && Valid()
        invariant items[..i] + Kept(items[i..], stale) == Kept(old(items), stale)
        decreases |lru| - i
      {
        var slot := SlotAt(i);
        KeptStep(items, i, stale);
        if stale(slot) {
          Remove(i);
        } else {
          i := i + 1;
        }
      }
      assert items[..i] == items && items[i..] == [];
      NothingKept(stale);
    }

    method Invalidate(progHash: string)
      requires Valid()
      modifies `cache, `lru, `items
      ensures Valid() && items == Kept(old(items), (s: Slot<E>) => s.progHash == progHash)
    {
      Purge((s: Slot<E>) => s.progHash == progHash);
    }

    method InvalidateBySymbol(sym: string)
      requires Valid()
      modifies `cache, `lru, `items
      ensures Valid() && items == Kept(old(items), (s: Slot<E>) => sym in s.syms)
    {
      Purge((s: Slot<E>) => sym in s.syms);
    }
  }

  lemma KeptStep<E>(l: seq<Item<E>>, i: nat, stale: Slot<E> -> bool)
    requires i < |l|
    ensures |Cut(l, i)| == |l| - 1
    ensures l[..i] + Kept(l[i..], stale) ==
            if stale(l[i].slot) then Cut(l, i)[..i] + Kept(Cut(l, i)[i..], stale)
            else l[..i + 1] + Kept(l[i + 1..], stale)
  {
    hide Cut;
    CutSlices(l, i);
    TailSlices(l, i);
    var rest, tail := l[i..], l[i + 1..];
    assert Kept(rest, stale) == if stale(rest[0].slot) then Kept(tail, stale) else [l[i]] + Kept(tail, stale);
    hide Kept;
  }

  lemma CutSlices<T>(l: seq<T>, i: nat)
    requires i < |l|
    ensures |Cut(l, i)| == |l| - 1 && Cut(l, i)[..i] == l[..i] && Cut(l, i)[i..] == l[i + 1..]
  {
  }

  lemma TailSlices<T>(l: seq<T>, i: nat)
    requires i < |l|
    ensures l[i..][0] == l[i] && l[i..][1..] == l[i + 1..] && l[..i + 1] == l[..i] + [l[i]]
  {
  }

  lemma NothingKept<E>(stale: Slot<E> -> bool)
    ensures Kept([], stale) == []
  {
  }

  lemma Present<E>(l: seq<Item<E>>, k: Key, i: nat)
    requires i < |l| && l[i].key == k
    ensures IndexOf(l, k, 0) < |l|
  {
  }

  // ----- runs -----

  datatype Call<!E> =
    | GetCall(key: Key)
    | PutCall(key: Key, slot: Slot<E>)
    | PurgeCall(stale: Slot<E> -> bool)
    | LimitCall(limit: nat)

  datatype State<E> = State(items: seq<Item<E>>, limit: nat)

  /** The list after one call, as the methods leave it. */
  function After<E>(s: State<E>, c: Call<E>): State<E> {
    match c
    case GetCall(k) =>
      var i := IndexOf(s.items, k, 0);
      if i == |s.items| then s else State(Fronted(s.items, k, s.items[i].slot), s.limit)
    case PutCall(k, slot) => State(Bounded(Fronted(s.items, k, slot), s.limit), s.limit)
    case PurgeCall(stale) => State(Kept(s.items, stale), s.limit)
    case LimitCall(n) => State(Bounded(s.items, n), n)
  }

  function AfterAll<E>(s: State<E>, cs: seq<Call<E>>): State<E> {
    if |cs| == 0 then s else After(AfterAll(s, cs[..|cs| - 1]), cs[|cs| - 1])
  }

  /** The slot that the calls put last under k. */
  function LastPut<E>(cs: seq<Call<E>>, k: Key): Option<Slot<E>> {
    if |cs| == 0 then None
    else if cs[|cs| - 1].PutCall? && cs[|cs| - 1].key == k then Some(cs[|cs| - 1].slot)
    else LastPut(cs[..|cs| - 1], k)
  }

  ghost predicate Fresh<E>(l: seq<Item<E>>, cs: seq<Call<E>>) {
    forall i :: 0 <= i < |l| ==> LastPut(cs, l[i].key) == Some(l[i].slot)
  }

  lemma {:induction false} KeptFrom<E>(l: seq<Item<E>>, stale: Slot<E> -> bool)
    ensures forall i :: 0 <= i < |Kept(l, stale)| ==> Kept(l, stale)[i] in l
    ensures Distinct(l) ==> Distinct(Kept(l, stale))
  {
    if |l| > 0 {
      KeptFrom(l[1..], stale);
      assert forall x :: x in l[1..] ==> x in l;
      if Distinct(l) {
        assert forall i :: 0 <= i < |l[1..]| ==> l[1..][i] == l[i + 1];
        forall i | 0 <= i < |Kept(l[1..], stale)|
          ensures Kept(l[1..], stale)[i].key != l[0].key
        {
          var j :| 0 <= j < |l[1..]| && l[1..][j] == Kept(l[1..], stale)[i];
        }
      }
    }
  }

  /** Exactly what is not stale is kept. */
  lemma {:induction false} KeptExactly<E>(l: seq<Item<E>>, stale: Slot<E> -> bool, x: Item<E>)
    ensures x in Kept(l, stale) <==> x in l && !stale(x.slot)
  {
    if |l| > 0 {
      KeptExactly(l[1..], stale, x);
      assert x in l <==> x == l[0] || x in l[1..];
    }
  }

  /** After any run every listed key has the slot last put under it, and is listed once. */
  lemma {:induction false} RunFresh<E>(cs: seq<Call<E>>, limit: nat)
    ensures var s := AfterAll(State([], limit), cs); Fresh(s.items, cs) && Distinct(s.items)
    decreases |cs|
  {
    if |cs| > 0 {
      var front, c := cs[..|cs| - 1], cs[|cs| - 1];
      RunFresh(front, limit);
      CallFresh(AfterAll(State([], limit), front), front, c, cs);
    }
  }

  lemma CallFresh<E>(s: State<E>, front: seq<Call<E>>, c: Call<E>, cs: seq<Call<E>>)
    requires |cs| > 0 && front == cs[..|cs| - 1] && c == cs[|cs| - 1] && Fresh(s.items, front) && Distinct(s.items)
    ensures Fresh(After(s, c).items, cs) && Distinct(After(s, c).items)
  {
    match c
    case PurgeCall(stale) =>
      KeptFrom(s.items, stale);
      forall i | 0 <= i < |Kept(s.items, stale)|
        ensures LastPut(cs, Kept(s.items, stale)[i].key) == Some(Kept(s.items, stale)[i].slot)
      {
        var j :| 0 <= j < |s.items| && s.items[j] == Kept(s.items, stale)[i];
      }
    case PutCall(k, slot) => FrontedFresh(s.items, k, slot, front, cs);
    case GetCall(k) =>
      var i := IndexOf(s.items, k, 0);
      if i < |s.items| { FrontedFresh(s.items, k, s.items[i].slot, front, cs); }
    case LimitCall(_) =>
  }

  lemma FrontedFresh<E>(l: seq<Item<E>>, k: Key, slot: Slot<E>, front: seq<Call<E>>, cs: seq<Call<E>>)
    requires |cs| > 0 && front == cs[..|cs| - 1] && Fresh(l, front) && Distinct(l)
    requires LastPut(cs, k) == Some(slot) && forall x :: x != k ==> LastPut(cs, x) == LastPut(front, x)
    ensures Fresh(Fronted(l, k, slot), cs) && Distinct(Fronted(l, k, slot))
  {
    var r := Fronted(l, k, slot);
    forall i | 0 < i < |r|
      ensures r[i].key != k && LastPut(cs, r[i].key) == Some(r[i].slot)
    {
      var j := Behind(l, k, slot, i);
    }
    forall i, j | 0 <= i < j < |r|
      ensures r[i].key != r[j].key
    {
      var q := Behind(l, k, slot, j);
      if i > 0 { var p := Behind(l, k, slot, i); }
    }
  }

  /** Behind the front stands what stood in the list, k aside, in its order. */
  lemma Behind<E>(l: seq<Item<E>>, k: Key, slot: Slot<E>, i: nat) returns (j: nat)
    requires Distinct(l) && 0 < i < |Fronted(l, k, slot)|
    ensures j < |l| && Fronted(l, k, slot)[i] == l[j] && l[j].key != k
    ensures j == if i <= IndexOf(l, k, 0) then i - 1 else i
  {
    j := if i <= IndexOf(l, k, 0) then i - 1 else i;
  }

  // ----- recency -----

  /** Counting from one, the last of the calls that names k in a get or a put; zero when none does. */
  function LastUse<E>(cs: seq<Call<E>>, k: Key): (r: nat)
    ensures r <= |cs|
  {
    if |cs| == 0 then 0
    else
      var c := cs[|cs| - 1];
      if (c.GetCall? || c.PutCall?) && c.key == k then |cs| else LastUse(cs[..|cs| - 1], k)
  }

  /** The later a key was used, the further in front it is listed. */
  ghost predicate ByRecency<E>(l: seq<Item<E>>, cs: seq<Call<E>>) {
    forall i, j :: 0 <= i < j < |l| ==> LastUse(cs, l[i].key) > LastUse(cs, l[j].key)
  }

  predicate Listed<E>(l: seq<Item<E>>, k: Key) { IndexOf(l, k, 0) < |l| }

  lemma FrontedByRecency<E>(l: seq<Item<E>>, k: Key, slot: Slot<E>, front: seq<Call<E>>, cs: seq<Call<E>>)
    requires |cs| > 0 && front == cs[..|cs| - 1] && ByRecency(l, front) && Distinct(l)
    requires LastUse(cs, k) == |cs| && forall x :: x != k ==> LastUse(cs, x) == LastUse(front, x)
    ensures ByRecency(Fronted(l, k, slot), cs)
  {
    var r := Fronted(l, k, slot);
    assert r[0].key == k;
    hide Fronted;
    hide IndexOf;
    hide LastUse;
    forall i, j | 0 <= i < j < |r|
      ensures LastUse(cs, r[i].key) > LastUse(cs, r[j].key)
    {
      var q := Behind(l, k, slot, j);
      if i > 0 { var p := Behind(l, k, slot, i); }
    }
  }

  /** What is kept stands in the order in which it stood. */
  lemma {:induction false} KeptOrder<E>(l: seq<Item<E>>, stale: Slot<E> -> bool, i: nat, j: nat)
    returns (p: nat, q: nat)
    requires i < j < |Kept(l, stale)|
    ensures p < q < |l| && l[p] == Kept(l, stale)[i] && l[q] == Kept(l, stale)[j]
  {
    if stale(l[0].slot) {
      p, q := KeptOrder(l[1..], stale, i, j);
      p, q := p + 1, q + 1;
    } else if i > 0 {
      p, q := KeptOrder(l[1..], stale, i - 1, j - 1);
      p, q := p + 1, q + 1;
    } else {
      p := 0;
      KeptFrom(l[1..], stale);
      assert Kept(l, stale)[j] == Kept(l[1..], stale)[j - 1];
      var m :| 0 <= m < |l[1..]| && l[1..][m] == Kept(l[1..], stale)[j - 1];
      q := m + 1;
    }
  }

  lemma CallByRecency<E>(s: State<E>, front: seq<Call<E>>, c: Call<E>, cs: seq<Call<E>>)
    requires |cs| > 0 && front == cs[..|cs| - 1] && c == cs[|cs| - 1] && ByRecency(s.items, front) && Distinct(s.items)
    ensures ByRecency(After(s, c).items, cs)
  {
    match c
    case PurgeCall(stale) =>
      forall i, j | 0 <= i < j < |Kept(s.items, stale)|
        ensures LastUse(cs, Kept(s.items, stale)[i].key) > LastUse(cs, Kept(s.items, stale)[j].key)
      {
        var p, q := KeptOrder(s.items, stale, i, j);
      }
    case PutCall(k, slot) => FrontedByRecency(s.items, k, slot, front, cs);
    case GetCall(k) =>
      var i := IndexOf(s.items, k, 0);
      if i < |s.items| { FrontedByRecency(s.items, k, s.items[i].slot, front, cs); }
    case LimitCall(_) =>
  }

  /** After any run the list is in the order of last use. */
  lemma {:induction false} RunByRecency<E>(cs: seq<Call<E>>, limit: nat)
    ensures ByRecency(AfterAll(State([], limit), cs).items, cs)
    decreases |cs|
  {
    if |cs| > 0 {
      var front, c := cs[..|cs| - 1], cs[|cs| - 1];
      RunByRecency(front, limit);
      RunFresh(front, limit);
      CallByRecency(AfterAll(State([], limit), front), front, c, cs);
    }
  }

  /** In any run an entry that a put or a lower limit drops was used before every entry that stays, and
      no more entries go than the limit asks for. */
  lemma OldestGoes<E>(cs: seq<Call<E>>, limit: nat, k: Key, i: nat)
    requires |cs| > 0 && (cs[|cs| - 1].PutCall? || cs[|cs| - 1].LimitCall?)
    requires var before := AfterAll(State([], limit), cs[..|cs| - 1]);
      var after := AfterAll(State([], limit), cs);
      && (Listed(before.items, k) || (cs[|cs| - 1].PutCall? && cs[|cs| - 1].key == k))
      && !Listed(after.items, k) && i < |after.items|
    ensures var after := AfterAll(State([], limit), cs);
      |after.items| == after.limit && LastUse(cs, k) < LastUse(cs, after.items[i].key)
  {
    var front, c := cs[..|cs| - 1], cs[|cs| - 1];
    var s := AfterAll(State([], limit), front);
    RunByRecency(front, limit);
    RunFresh(front, limit);
    var full := if c.PutCall? then Fronted(s.items, c.key, c.slot) else s.items;
    assert After(s, c).items == Bounded(full, After(s, c).limit);
    if c.PutCall? { FrontedByRecency(s.items, c.key, c.slot, front, cs); }
    assert ByRecency(full, cs);
    hide ByRecency;
    hide Fresh;
    hide Distinct;
    hide Fronted;
    hide Bounded;
    hide LastUse;
    var j := StillThere(s.items, full, c, k);
    Dropped(full, After(s, c).limit, cs, k, j, i);
  }

  lemma Dropped<E>(full: seq<Item<E>>, limit: nat, cs: seq<Call<E>>, k: Key, j: nat, i: nat)
    requires ByRecency(full, cs) && j < |full| && full[j].key == k
    requires !Listed(Bounded(full, limit), k) && i < |Bounded(full, limit)|
    ensures |Bounded(full, limit)| == limit && LastUse(cs, k) < LastUse(cs, Bounded(full, limit)[i].key)
  {
    hide LastUse;
    var t := Bounded(full, limit);
    assert forall m :: 0 <= m < |t| ==> t[m].key != k;
    hide IndexOf;
    assert j >= |t|;
  }

  lemma StillThere<E>(l: seq<Item<E>>, full: seq<Item<E>>, c: Call<E>, k: Key) returns (j: nat)
    requires full == if c.PutCall? then Fronted(l, c.key, c.slot) else l
    requires Listed(l, k) || (c.PutCall? && c.key == k)
    ensures j < |full| && full[j].key == k
  {
    var p := IndexOf(l, k, 0);
    if c.PutCall? {
      j := if c.key == k then 0 else if p < IndexOf(l, c.key, 0) then p + 1 else p;
    } else {
      j := p;
    }
  }
}
