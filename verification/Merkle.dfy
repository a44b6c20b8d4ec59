/** Merkle proofs and the hash-linked audit log, over uninterpreted hash functions. */
module Merkle {

  type Hash<!D> = (D, D) -> D

  ghost predicate Injective<D(!new)>(h: Hash<D>) {
    forall a, b, c, d :: h(a, b) == h(c, d) ==> a == c && b == d
  }

  // ----- levels -----

  /** Neighbours hashed in pairs; the last node of an odd level is paired with itself. */
  function Up<D>(h: Hash<D>, cur: seq<D>): (up: seq<D>)
    ensures |up| == (|cur| + 1) / 2
  {
    if |cur| == 0 then []
    else if |cur| % 2 == 1 then Up(h, cur[..|cur| - 1]) + [h(cur[|cur| - 1], cur[|cur| - 1])]
    else Up(h, cur[..|cur| - 2]) + [h(cur[|cur| - 2], cur[|cur| - 1])]
  }

  function Sibling(i: nat, n: nat): (s: nat)
    requires i < n
    ensures s < n
  {
    var s := if i % 2 == 0 then i + 1 else i - 1;
    if s >= n then i else s
  }

  /** The node above i joins i and its sibling, in their order. */
  lemma {:induction false} UpAt<D>(h: Hash<D>, cur: seq<D>, i: nat)
    requires i < |cur|
    ensures i / 2 < |Up(h, cur)|
    ensures Up(h, cur)[i / 2] ==
      if i % 2 == 0 then h(cur[i], cur[Sibling(i, |cur|)]) else h(cur[Sibling(i, |cur|)], cur[i])
  {
    var n := if |cur| % 2 == 1 then |cur| - 1 else |cur| - 2;
    if i < n {
      var low := cur[..n];
      assert low[i] == cur[i] && low[Sibling(i, n)] == cur[Sibling(i, |cur|)];
      UpAt(h, low, i);
      assert Up(h, cur)[i / 2] == Up(h, low)[i / 2];
    }
  }

  method HashUp<D>(h: Hash<D>, cur: seq<D>) returns (up: seq<D>)
    ensures up == Up(h, cur)
  {
    up := [];
    var i := 0;
    while i < |cur|
      invariant 0 <= i <= |cur| + 1 && (i < |cur| ==> i % 2 == 0) && (i > |cur| ==> i % 2 == 0)
      invariant up == Up(h, cur[..if i < |cur| then i else |cur|])
    {
      var right := if i + 1 < |cur| then cur[i + 1] else cur[i];
      var next := if i + 2 < |cur| then i + 2 else |cur|;
      assert cur[..next][..i] == cur[..i];
      up := up + [h(cur[i], right)];
      i := i + 2;
    }
    assert cur[..|cur|] == cur;
  }

  /** Every level is the one below it hashed up, and only the last is a single node. */
  predicate Tower<D(==)>(h: Hash<D>, levels: seq<seq<D>>) {
    && |levels| > 0 && |levels[0]| > 0
    && forall k :: 0 <= k < |levels| - 1 ==> |levels[k]| > 1 && levels[k + 1] == Up(h, levels[k])
  }

  function Root<D>(h: Hash<D>, leaves: seq<D>): D
    requires |leaves| > 0
    decreases |leaves|
  {
    if |leaves| == 1 then leaves[0] else Root(h, Up(h, leaves))
  }

  // ----- proofs -----

  datatype Step<D> = Step(sib: D, right: bool)

  /** The siblings on the way up from leaf i. */
  function Path<D>(h: Hash<D>, cur: seq<D>, i: nat): seq<Step<D>>
    requires i < |cur|
    decreases |cur|
  {
    if |cur| == 1 then []
    else [Step(cur[Sibling(i, |cur|)], i % 2 == 0)] + Path(h, Up(h, cur), i / 2)
  }

  lemma PathStep<D>(h: Hash<D>, cur: seq<D>, i: nat)
    requires i < |cur| && |cur| > 1
    ensures i / 2 < |Up(h, cur)|
    ensures Path(h, cur, i) == [Step(cur[Sibling(i, |cur|)], i % 2 == 0)] + Path(h, Up(h, cur), i / 2)
  {
    hide Up;
  }

  lemma PathEnds<D>(h: Hash<D>, cur: seq<D>, i: nat)
    requires i < |cur| == 1
    ensures Path(h, cur, i) == []
  {
  }

  function Climb<D>(h: Hash<D>, leaf: D, path: seq<Step<D>>): D
    decreases path
  {
    if |path| == 0 then leaf
    else Climb(h, if path[0].right then h(leaf, path[0].sib) else h(path[0].sib, leaf), path[1..])
  }

  method Verify<D(==)>(h: Hash<D>, leaf: D, path: seq<Step<D>>, root: D) returns (ok: bool)
    ensures ok <==> Climb(h, leaf, path) == root
  {
    var acc := leaf;
    for i := 0 to |path|
      invariant Climb(h, acc, path[i..]) == Climb(h, leaf, path)
    {
      assert path[i..][1..] == path[i + 1..];
      acc := if path[i].right then h(acc, path[i].sib) else h(path[i].sib, acc);
    }
    ok := acc == root;
  }

  /** Every leaf's path leads to the root, on odd levels too. */
  lemma {:induction false} PathVerifies<D>(h: Hash<D>, cur: seq<D>, i: nat)
    requires i < |cur|
    ensures Climb(h, cur[i], Path(h, cur, i)) == Root(h, cur)
    decreases |cur|
  {
    hide Up;
    if |cur| > 1 {
      UpAt(h, cur, i);
      var path := Path(h, cur, i);
      assert path[1..] == Path(h, Up(h, cur), i / 2);
      PathVerifies(h, Up(h, cur), i / 2);
    }
  }

  /** Where the last pair of an odd or even number of nodes begins. */
  function Front(n: nat): nat
    requires n > 0
  {
    if n % 2 == 1 then n - 1 else n - 2
  }

  lemma UpSteps<D>(h: Hash<D>, cur: seq<D>)
    requires |cur| > 0
    ensures Front(|cur|) < |cur|
    ensures Up(h, cur) == Up(h, cur[..Front(|cur|)]) + [h(cur[Front(|cur|)], cur[|cur| - 1])]
  {
  }

  lemma FrontMoves(m: nat, n: nat)
    requires m % 2 == 0 && n > 0
    ensures Front(m + n) == m + Front(n)
  {
  }

  lemma {:induction false} UpJoined<D>(h: Hash<D>, a: seq<D>, b: seq<D>)
    requires |a| % 2 == 0
    ensures Up(h, a + b) == Up(h, a) + Up(h, b)
    decreases |b|
  {
    hide *;
    if |b| == 0 {
      UpNothing(h, a, b);
    } else {
      FrontMoves(|a|, |b|);
      FrontBefore(|b|);
      UpJoined(h, a, b[..Front(|b|)]);
      JoinStep(h, a, b, Front(|b|));
    }
  }

  lemma UpNothing<D>(h: Hash<D>, a: seq<D>, b: seq<D>)
    requires |b| == 0
    ensures Up(h, a + b) == Up(h, a) + Up(h, b)
  {
    assert a + b == a;
  }

  lemma FrontBefore(n: nat)
    requires n > 0
    ensures Front(n) < n
  {
  }

  lemma JoinStep<D>(h: Hash<D>, a: seq<D>, b: seq<D>, k: nat)
    requires k < |b| && Front(|b|) == k && Front(|a + b|) == |a| + k
    requires Up(h, a + b[..k]) == Up(h, a) + Up(h, b[..k])
    ensures Up(h, a + b) == Up(h, a) + Up(h, b)
  {
    hide *;
    var c := a + b;
    JoinedParts(a, b, k);
    UpSteps(h, b);
    UpSteps(h, c);
    Regrouped(Up(h, a), Up(h, b[..k]), [h(b[k], b[|b| - 1])]);
  }

  lemma Regrouped<D>(x: seq<D>, y: seq<D>, z: seq<D>)
    ensures x + y + z == x + (y + z)
  {
  }

  lemma JoinedParts<D>(a: seq<D>, b: seq<D>, n: nat)
    requires n < |b|
    ensures (a + b)[..|a| + n] == a + b[..n] && (a + b)[|a| + n] == b[n] && (a + b)[|a + b| - 1] == b[|b| - 1]
  {
  }

  function Leaves(k: nat): nat { if k == 0 then 1 else 2 * Leaves(k - 1) }

  /** Over twice as many leaves as fill a tree the root joins the roots of the halves, the left one first. */
  lemma {:induction false} RootOfHalves<D>(h: Hash<D>, a: seq<D>, b: seq<D>, k: nat)
    requires |a| == |b| == Leaves(k)
    ensures |a| > 0 && Root(h, a + b) == h(Root(h, a), Root(h, b))
    decreases k
  {
    if k == 0 {
      assert a + b == [a[0], b[0]] && (a + b)[..0] == [];
      assert Up(h, a + b) == Up(h, []) + [h(a[0], b[0])];
    } else {
      UpJoined(h, a, b);
      LeavesHalved(k);
      hide Up;
      RootOfHalves(h, Up(h, a), Up(h, b), k - 1);
    }
  }

  lemma LeavesHalved(k: nat)
    requires k > 0
    ensures Leaves(k) == 2 * Leaves(k - 1) && Leaves(k - 1) > 0
  {
    if k > 1 { LeavesHalved(k - 1); }
  }

  /** With an injective hash a path leads to the root from one leaf only. */
  lemma {:induction false} PathBinds<D(!new)>(h: Hash<D>, x: D, y: D, path: seq<Step<D>>)
    requires Injective(h) && Climb(h, x, path) == Climb(h, y, path)
    ensures x == y
    decreases path
  {
    if |path| > 0 {
      var s := path[0];
      if s.right { PathBinds(h, h(x, s.sib), h(y, s.sib), path[1..]); }
      else { PathBinds(h, h(s.sib, x), h(s.sib, y), path[1..]); }
    }
  }

  /** With an injective hash equal roots over equally many leaves mean equal leaves. */
  lemma {:induction false} RootBinds<D(!new)>(h: Hash<D>, a: seq<D>, b: seq<D>)
    requires Injective(h) && |a| == |b| > 0 && Root(h, a) == Root(h, b)
    ensures a == b
    decreases |a|
  {
    hide Up;
    if |a| > 1 {
      RootBinds(h, Up(h, a), Up(h, b));
      forall i: nat | i < |a|
        ensures a[i] == b[i]
      {
        UpAt(h, a, i);
        UpAt(h, b, i);
      }
    }
  }

  /** The length is part of what must agree: an odd list and the same with its last leaf
      repeated share their root. */
  lemma OddTwin<D>(h: Hash<D>, x: D, y: D, z: D)
    ensures Root(h, [x, y, z]) == Root(h, [x, y, z, z])
  {
    var a, b := [x, y, z], [x, y, z, z];
    assert Up(h, a) == [h(x, y), h(z, z)];
    assert Up(h, b) == [h(x, y), h(z, z)];
  }

  // ----- how many leaves there are is not bound -----

  function Same<D>(n: nat, x: D): seq<D> { seq(n, _ => x) }

  /** The levels above n leaves. */
  function Height(n: nat): nat
    requires n > 0
  {
    if n == 1 then 0 else 1 + Height((n + 1) / 2)
  }

  function Tall<D>(h: Hash<D>, k: nat, x: D): D { if k == 0 then x else Tall(h, k - 1, h(x, x)) }

  lemma {:induction false} TallSum<D>(h: Hash<D>, j: nat, k: nat, x: D)
    ensures Tall(h, j + k, x) == Tall(h, j, Tall(h, k, x))
    decreases k
  {
    if k > 0 { TallSum(h, j, k - 1, h(x, x)); }
  }

  lemma SameUp<D>(h: Hash<D>, n: nat, x: D)
    ensures Up(h, Same(n, x)) == Same((n + 1) / 2, h(x, x))
  {
    hide Up;
    forall j: nat | j < (n + 1) / 2
      ensures Up(h, Same(n, x))[j] == h(x, x)
    {
      UpAt(h, Same(n, x), 2 * j);
    }
  }

  /** The root over equal leaves depends on their number only through its height. */
  lemma {:induction false} SameRoot<D>(h: Hash<D>, n: nat, x: D)
    requires n > 0
    ensures Root(h, Same(n, x)) == Tall(h, Height(n), x)
  {
    hide Up;
    if n > 1 {
      SameUp(h, n, x);
      SameRoot(h, (n + 1) / 2, h(x, x));
    }
  }

  /** Any two numbers of leaves have lists that share a root, whatever the hash. */
  lemma SharedRoot<D>(h: Hash<D>, n: nat, m: nat, x: D) returns (a: seq<D>, b: seq<D>)
    requires n > 0 && m > 0
    ensures |a| == n && |b| == m && Root(h, a) == Root(h, b)
  {
    hide Root;
    hide Tall;
    hide Height;
    var (j, k) := (Height(n), Height(m));
    var y, z := x, x;
    if j < k {
      y := Tall(h, k - j, x);
      TallSum(h, j, k - j, x);
    } else {
      z := Tall(h, j - k, x);
      TallSum(h, k, j - k, x);
    }
    SameRoot(h, n, y);
    SameRoot(h, m, z);
    a, b := Same(n, y), Same(m, z);
  }

  /** With an injective hash, a root binds n leaves against m leaves exactly when n is m. */
  lemma RootBindsExactly<D(!new)>(h: Hash<D>, n: nat, m: nat, x: D)
    requires Injective(h) && n > 0 && m > 0
    ensures (forall a: seq<D>, b: seq<D> :: |a| == n && |b| == m && Root(h, a) == Root(h, b) ==> a == b) <==> n == m
  {
    hide Root;
    if n == m {
      forall a: seq<D>, b: seq<D> | |a| == n && |b| == m && Root(h, a) == Root(h, b)
        ensures a == b
      {
        RootBinds(h, a, b);
      }
    } else {
      var a, b := SharedRoot(h, n, m, x);
    }
  }

  class Tree<D(==)> {
    const h: Hash<D>
    const empty: D
    var n: nat
    var levels: seq<seq<D>>
    var root: D

    ghost predicate Valid(leaves: seq<D>)
      reads this
    {
      && n == |leaves|
      && (n == 0 ==> root == empty && levels == [[empty]])
      && (n > 0 ==> Tower(h, levels) && levels[0] == leaves && |levels[|levels| - 1]| == 1 && root == Root(h, leaves))
    }

    /** No leaves give the given digest as root; otherwise levels are hashed until one node is left. */
    constructor (h: Hash<D>, empty: D, leaves: seq<D>)
      ensures this.h == h && this.empty == empty && Valid(leaves)
    {
      this.h, this.empty, n, levels, root := h, empty, |leaves|, [[empty]], empty;
      new;
      if |leaves| > 0 {
        hide Up;
        levels := [leaves];
        while |levels[|levels| - 1]| > 1
          invariant Tower(h, levels) && levels[0] == leaves && n == |leaves| && |levels[|levels| - 1]| > 0
          invariant Root(h, levels[|levels| - 1]) == Root(h, leaves)
          decreases |levels[|levels| - 1]|
        {
          var up := HashUp(h, levels[|levels| - 1]);
          levels := levels + [up];
        }
        root := levels[|levels| - 1][0];
      }
    }

    /** The siblings of leaf i, level by level; none for a leaf that is not there. */
    method Proof(i: nat, ghost leaves: seq<D>) returns (path: seq<Step<D>>)
      requires Valid(leaves)
      ensures path == if i < |leaves| then Path(h, leaves, i) else []
    {
      hide Up;
      path := [];
      if i >= n {
        return;
      }
      hide Path;
      var idx: nat, lv := i, 0;
      while lv + 1 < |levels|
        invariant 0 <= lv < |levels| && idx < |levels[lv]|
        invariant path + Path(h, levels[lv], idx) == Path(h, leaves, i)
      {
        var cur := levels[lv];
        PathStep(h, cur, idx);
        var right := idx % 2 == 0;
        var sib := if right then idx + 1 else idx - 1;
        if sib >= |cur| {
          sib := idx;
        }
        Regrouped(path, [Step(cur[sib], right)], Path(h, levels[lv + 1], idx / 2));
        path := path + [Step(cur[sib], right)];
        idx := idx / 2;
        lv := lv + 1;
      }
      PathEnds(h, levels[lv], idx);
    }
  }

  // ----- the audit log -----

  datatype Entry<D> = Entry(seqNo: nat, payload: D, prev: D, hash: D)

  type EntryHash<!D> = (nat, D, D) -> D

  ghost predicate EntryInjective<D(!new)>(eh: EntryHash<D>) {
    forall i, p, q, j, r, s :: eh(i, p, q) == eh(j, r, s) ==> i == j && p == r && q == s
  }

  function HeadOf<D>(genesis: D, es: seq<Entry<D>>): D {
    if |es| == 0 then genesis else es[|es| - 1].hash
  }

  /** Every entry names the hash before it and carries its own. */
  predicate Linked<D(==)>(eh: EntryHash<D>, genesis: D, es: seq<Entry<D>>) {
    |es| > 0 ==>
      var before, last := es[..|es| - 1], es[|es| - 1];
      && Linked(eh, genesis, before) && last.prev == HeadOf(genesis, before)
      && last.hash == eh(last.seqNo, last.payload, last.prev)
  }

  lemma {:induction false} LinkedPrefix<D>(eh: EntryHash<D>, genesis: D, es: seq<Entry<D>>, i: nat)
    requires i <= |es| && Linked(eh, genesis, es)
    ensures Linked(eh, genesis, es[..i])
    decreases |es|
  {
    if i < |es| {
      assert es[..|es| - 1][..i] == es[..i];
      LinkedPrefix(eh, genesis, es[..|es| - 1], i);
    } else {
      assert es[..i] == es;
    }
  }

  /** Entries are numbered by their positions. */
  predicate Numbered<D>(es: seq<Entry<D>>) { forall i :: 0 <= i < |es| ==> es[i].seqNo == i }

  class AuditChain<D(==)> {
    const eh: EntryHash<D>
    const genesis: D
    var entries: seq<Entry<D>>
    var head: D

    constructor (eh: EntryHash<D>, genesis: D)
      ensures this.eh == eh && this.genesis == genesis && entries == [] && Grown()
    {
      this.eh, this.genesis, entries, head := eh, genesis, [], genesis;
    }

    /** What every run of appends keeps. */
    ghost predicate Grown()
      reads this
    {
      Linked(eh, genesis, entries) && head == HeadOf(genesis, entries) && Numbered(entries)
    }

    method Append(payload: D) returns (hash: D)
      requires Grown()
      modifies this
      ensures Grown() && hash == head
      ensures entries == old(entries) + [Entry(|old(entries)|, payload, old(head), hash)]
    {
      hash := eh(|entries|, payload, head);
      ghost var before := entries;
      entries := entries + [Entry(|entries|, payload, head, hash)];
      assert entries[..|before|] == before;
      head := hash;
    }

    /** Exactly the linked logs that end in the head pass. */
    method Verify() returns (ok: bool)
      ensures ok <==> Linked(eh, genesis, entries) && head == HeadOf(genesis, entries)
    {
      var prev := genesis;
      for i := 0 to |entries|
        invariant Linked(eh, genesis, entries[..i]) && prev == HeadOf(genesis, entries[..i])
      {
        var en := entries[i];
        assert entries[..i + 1][..i] == entries[..i];
        if Linked(eh, genesis, entries) { LinkedPrefix(eh, genesis, entries, i + 1); }
        if en.prev != prev || en.hash != eh(en.seqNo, en.payload, en.prev) {
          return false;
        }
        prev := en.hash;
      }
      assert entries[..|entries|] == entries;
      ok := prev == head;
    }
  }

  /** With an injective entry hash the head fixes the whole log of its length. */
  lemma {:induction false} HeadBinds<D(!new)>(eh: EntryHash<D>, genesis: D, a: seq<Entry<D>>, b: seq<Entry<D>>)
    requires EntryInjective(eh) && Linked(eh, genesis, a) && Linked(eh, genesis, b)
    requires |a| == |b| && HeadOf(genesis, a) == HeadOf(genesis, b)
    ensures a == b
    decreases |a|
  {
    if |a| > 0 {
      var n := |a| - 1;
      assert eh(a[n].seqNo, a[n].payload, a[n].prev) == eh(b[n].seqNo, b[n].payload, b[n].prev);
      HeadBinds(eh, genesis, a[..n], b[..n]);
      assert a == a[..n] + [a[n]] && b == b[..n] + [b[n]];
    }
  }

  /** The head of a log that appends have grown fixes its length too, unless it is empty. */
  lemma GrownHeadBinds<D(!new)>(eh: EntryHash<D>, genesis: D, a: seq<Entry<D>>, b: seq<Entry<D>>)
    requires EntryInjective(eh) && Linked(eh, genesis, a) && Linked(eh, genesis, b) && Numbered(a) && Numbered(b)
    requires |a| > 0 && |b| > 0 && HeadOf(genesis, a) == HeadOf(genesis, b)
    ensures a == b
  {
    var (m, n) := (|a| - 1, |b| - 1);
    assert eh(a[m].seqNo, a[m].payload, a[m].prev) == eh(b[n].seqNo, b[n].payload, b[n].prev);
    HeadBinds(eh, genesis, a, b);
  }
}
