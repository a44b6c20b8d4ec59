/** Gluing sections: each symbol's ranges meet and its dimensions must agree. */
module Glue {
  import opened ExtReal
  import opened Interval
  import opened Options

  datatype Name = Name(text: string)

  /** A symbol in one region: its range, and its dimension when it has one. */
  datatype Assign = Assign(range: Ival, dim: Option<seq<int>>)

  /** A region and its symbols in the order of their names. */
  datatype Section = Section(region: Name, syms: seq<(Name, Assign)>)

  datatype Entry = Entry(name: Name, region: Name, a: Assign)

  datatype Kind = Dimension | Range

  datatype Conflict = Conflict(symbol: Name, first: Name, second: Name, kind: Kind)

  /** What is held of a symbol: its assignment so far and the region it was first seen in. */
  datatype Held = Held(a: Assign, region: Name)

  datatype State = State(acc: map<Name, Held>, conflicts: seq<Conflict>, matches: seq<(Name, Name, Name)>)

  // ----- what gluing computes, entry by entry -----

  function Entries(sections: seq<Section>): seq<Entry> {
    if |sections| == 0 then []
    else
      var s := sections[|sections| - 1];
      Entries(sections[..|sections| - 1]) + EntriesOf(s.region, s.syms)
  }

  function EntriesOf(region: Name, syms: seq<(Name, Assign)>): (es: seq<Entry>)
    ensures |es| == |syms| && forall i :: 0 <= i < |es| ==> es[i] == Entry(syms[i].0, region, syms[i].1)
  {
    seq(|syms|, i requires 0 <= i < |syms| => Entry(syms[i].0, region, syms[i].1))
  }

  predicate DimsClash(p: Option<seq<int>>, q: Option<seq<int>>) { p.Some? && q.Some? && p != q }

  function Start(): State { State(map[], [], []) }

  function Step(st: State, e: Entry): State {
    if e.name !in st.acc then st.(acc := st.acc[e.name := Held(e.a, e.region)])
    else
      var held := st.acc[e.name];
      var seen := st.(matches := st.matches + [(e.name, held.region, e.region)]);
      if DimsClash(e.a.dim, held.a.dim) then
        seen.(conflicts := st.conflicts + [Conflict(e.name, held.region, e.region, Dimension)])
      else
        var dim := if held.a.dim.None? then e.a.dim else held.a.dim;
        var m := Meet(held.a.range, e.a.range);
        if IsEmpty(m) then
          State(st.acc[e.name := Held(Assign(held.a.range, dim), held.region)],
                st.conflicts + [Conflict(e.name, held.region, e.region, Range)], seen.matches)
        else seen.(acc := st.acc[e.name := Held(Assign(m, dim), held.region)])
  }

  function Run(es: seq<Entry>): State {
    if |es| == 0 then Start() else Step(Run(es[..|es| - 1]), es[|es| - 1])
  }

  method AbsorbEntry(acc: map<Name, Held>, conflicts: seq<Conflict>, matches: seq<(Name, Name, Name)>, e: Entry)
    returns (acc2: map<Name, Held>, conflicts2: seq<Conflict>, matches2: seq<(Name, Name, Name)>)
    ensures State(acc2, conflicts2, matches2) == Step(State(acc, conflicts, matches), e)
  {
    acc2, conflicts2, matches2 := acc, conflicts, matches;
    if e.name !in acc {
      acc2 := acc[e.name := Held(e.a, e.region)];
      return;
    }
    var held := acc[e.name];
    matches2 := matches + [(e.name, held.region, e.region)];
    if DimsClash(e.a.dim, held.a.dim) {
      conflicts2 := conflicts + [Conflict(e.name, held.region, e.region, Dimension)];
      return;
    }
    var cur := held.a;
    if cur.dim.None? && e.a.dim.Some? {
      cur := cur.(dim := e.a.dim);
    }
    var m := Meet(cur.range, e.a.range);
    if IsEmpty(m) {
      conflicts2 := conflicts + [Conflict(e.name, held.region, e.region, Range)];
    } else {
      cur := cur.(range := m);
    }
    acc2 := acc[e.name := Held(cur, held.region)];
  }

  method GlueSections(sections: seq<Section>)
    returns (acc: map<Name, Held>, conflicts: seq<Conflict>, matches: seq<(Name, Name, Name)>)
    ensures State(acc, conflicts, matches) == Run(Entries(sections))
  {
    acc, conflicts, matches := map[], [], [];
    var i := 0;
    while i < |sections|
      invariant 0 <= i <= |sections| && State(acc, conflicts, matches) == Run(Entries(sections[..i]))
    {
      ghost var before := Entries(sections[..i]);
      var s := sections[i];
      ghost var mine := EntriesOf(s.region, s.syms);
      var j := 0;
      assert before + mine[..0] == before;
      while j < |s.syms|
        invariant 0 <= j <= |s.syms| && State(acc, conflicts, matches) == Run(before + mine[..j])
      {
        Snoc(before, mine, j);
        acc, conflicts, matches := AbsorbEntry(acc, conflicts, matches, Entry(s.syms[j].0, s.region, s.syms[j].1));
        j := j + 1;
      }
      assert mine[..j] == mine;
      assert sections[..i + 1][..i] == sections[..i];
      i := i + 1;
    }
    assert sections[..i] == sections;
  }

  lemma Snoc(before: seq<Entry>, mine: seq<Entry>, j: nat)
    requires j < |mine|
    ensures Run(before + mine[..j + 1]) == Step(Run(before + mine[..j]), mine[j])
  {
    var all := before + mine[..j + 1];
    assert all[..|all| - 1] == before + mine[..j];
    hide Step;
  }

  // ----- what it means -----

  /** Ranges are empty or hold some number. */
  predicate Ranged(es: seq<Entry>) {
    forall i :: 0 <= i < |es| ==> EmptyOrProper(es[i].a.range)
  }

  predicate EmptyOrProper(r: Ival) { IsEmpty(r) || Proper(r) }

  predicate At(es: seq<Entry>, i: nat, s: Name) { i < |es| && es[i].name == s }

  /** x lies in every range given for s. */
  ghost predicate InAll(es: seq<Entry>, s: Name, x: real) {
    forall i: nat :: At(es, i, s) ==> Contains(es[i].a.range, x)
  }

  ghost predicate Shared(es: seq<Entry>, s: Name) {
    exists i: nat, j: nat :: i < j && At(es, i, s) && At(es, j, s)
  }

  ghost predicate DimsAgree(es: seq<Entry>, s: Name) {
    forall i: nat, j: nat :: At(es, i, s) && At(es, j, s) ==> !DimsClash(es[i].a.dim, es[j].a.dim)
  }

  /** The sections can be glued at s: at most one has it, or they agree on it. */
  ghost predicate Agreed(es: seq<Entry>, s: Name) {
    Shared(es, s) ==> DimsAgree(es, s) && exists x :: InAll(es, s, x)
  }

  ghost predicate AllAgreed(es: seq<Entry>) { forall s :: Agreed(es, s) }

  /** What is held of s is all that has been said of it. */
  ghost predicate Faithful(es: seq<Entry>, s: Name, acc: map<Name, Held>) {
    && (s in acc <==> exists i: nat :: At(es, i, s))
    && (s in acc ==>
          && (IsEmpty(acc[s].a.range) || Proper(acc[s].a.range))
          && (Shared(es, s) ==> Proper(acc[s].a.range))
          && (forall x :: Contains(acc[s].a.range, x) <==> InAll(es, s, x))
          && (forall i: nat :: At(es, i, s) && es[i].a.dim.Some? ==> acc[s].a.dim == es[i].a.dim)
          && (acc[s].a.dim.Some? ==> exists i: nat :: At(es, i, s) && es[i].a.dim == acc[s].a.dim))
  }

  ghost predicate AllFaithful(es: seq<Entry>, acc: map<Name, Held>) { forall s :: Faithful(es, s, acc) }

  /** Disagreement stays. */
  lemma DisagreementStays(es: seq<Entry>, s: Name)
    requires |es| > 0 && !Agreed(es[..|es| - 1], s)
    ensures !Agreed(es, s)
  {
    var front := es[..|es| - 1];
    assert forall i: nat :: At(front, i, s) ==> At(es, i, s) && es[i] == front[i];
    assert forall x :: InAll(es, s, x) ==> InAll(front, s, x);
  }

  /** Gluing is consistent exactly when every symbol of two sections or more has one dimension and
      some number in all its ranges; what is glued then is exactly what the sections share. */
  lemma {:induction false} GluedExactly(es: seq<Entry>)
    requires Ranged(es)
    ensures |Run(es).conflicts| == 0 <==> AllAgreed(es)
    ensures |Run(es).conflicts| == 0 ==> AllFaithful(es, Run(es).acc)
  {
    if |es| > 0 {
      var front, e := es[..|es| - 1], es[|es| - 1];
      GluedExactly(front);
      var st := Run(front);
      if |st.conflicts| > 0 {
        var s :| !Agreed(front, s);
        DisagreementStays(es, s);
        ConflictsStay(st, e);
      } else {
        StepExact(es, st);
      }
    } else {
      NothingSaid(es);
    }
  }

  lemma NothingSaid(es: seq<Entry>)
    requires |es| == 0
    ensures AllAgreed(es) && AllFaithful(es, map[])
  {
  }

  lemma ConflictsStay(st: State, e: Entry)
    ensures |Step(st, e).conflicts| >= |st.conflicts|
  {
  }

  lemma StepExact(es: seq<Entry>, st: State)
    requires Ranged(es) && |es| > 0 && |st.conflicts| == 0 && AllAgreed(es[..|es| - 1])
    requires AllFaithful(es[..|es| - 1], st.acc)
    ensures |Step(st, es[|es| - 1]).conflicts| == 0 <==> AllAgreed(es)
    ensures |Step(st, es[|es| - 1]).conflicts| == 0 ==> AllFaithful(es, Step(st, es[|es| - 1]).acc)
  {
    var front, e := es[..|es| - 1], es[|es| - 1];
    var next := Step(st, e);
    forall s | s != e.name
      ensures Agreed(es, s) && Faithful(es, s, next.acc)
    {
      Untouched(es, st, s);
    }
    Touched(es, st);
  }

  lemma Untouched(es: seq<Entry>, st: State, s: Name)
    requires |es| > 0 && s != es[|es| - 1].name && Agreed(es[..|es| - 1], s) && Faithful(es[..|es| - 1], s, st.acc)
    ensures Agreed(es, s) && Faithful(es, s, Step(st, es[|es| - 1]).acc)
  {
    var front := es[..|es| - 1];
    assert forall i: nat :: At(front, i, s) <==> At(es, i, s);
    assert forall i: nat :: At(front, i, s) ==> es[i] == front[i];
    assert forall x :: InAll(front, s, x) <==> InAll(es, s, x);
    assert Shared(front, s) <==> Shared(es, s);
    assert DimsAgree(front, s) <==> DimsAgree(es, s);
    var acc, acc2 := st.acc, Step(st, es[|es| - 1]).acc;
    assert (s in acc2 <==> s in acc) && (s in acc ==> acc2[s] == acc[s]);
    hide Step;
    hide Contains;
    hide Proper;
    hide IsEmpty;
  }

  lemma Touched(es: seq<Entry>, st: State)
    requires Ranged(es) && |es| > 0 && |st.conflicts| == 0
    requires Agreed(es[..|es| - 1], es[|es| - 1].name) && Faithful(es[..|es| - 1], es[|es| - 1].name, st.acc)
    ensures |Step(st, es[|es| - 1]).conflicts| == 0 <==> Agreed(es, es[|es| - 1].name)
    ensures |Step(st, es[|es| - 1]).conflicts| == 0 ==> Faithful(es, es[|es| - 1].name, Step(st, es[|es| - 1]).acc)
  {
    var front, last, e := es[..|es| - 1], |es| - 1, es[|es| - 1];
    var s := e.name;
    assert forall i: nat :: At(es, i, s) <==> i == last || At(front, i, s);
    assert forall i: nat :: At(front, i, s) ==> es[i] == front[i];
    assert forall x :: InAll(es, s, x) <==> InAll(front, s, x) && Contains(e.a.range, x);
    if s !in st.acc {
      assert !Shared(es, s);
      assert At(es, last, s);
      hide Proper;
      hide Contains;
    } else {
      Again(es, st);
    }
  }

  /** A symbol seen before. */
  lemma Again(es: seq<Entry>, st: State)
    requires Ranged(es) && |es| > 0 && |st.conflicts| == 0 && es[|es| - 1].name in st.acc
    requires Agreed(es[..|es| - 1], es[|es| - 1].name) && Faithful(es[..|es| - 1], es[|es| - 1].name, st.acc)
    ensures |Step(st, es[|es| - 1]).conflicts| == 0 <==> Agreed(es, es[|es| - 1].name)
    ensures |Step(st, es[|es| - 1]).conflicts| == 0 ==> Faithful(es, es[|es| - 1].name, Step(st, es[|es| - 1]).acc)
  {
    var front, last, e := es[..|es| - 1], |es| - 1, es[|es| - 1];
    var s := e.name;
    var held := st.acc[s].a;
    assert forall i: nat :: At(es, i, s) <==> i == last || At(front, i, s);
    assert forall i: nat :: At(front, i, s) ==> es[i] == front[i];
    assert forall x :: InAll(es, s, x) <==> InAll(front, s, x) && Contains(e.a.range, x);
    var k: nat :| At(front, k, s);
    assert At(es, k, s) && At(es, last, s) && Shared(es, s);
    DimsStep(es, st);
    MeetExact(held.range, e.a.range);
    hide Contains;
    hide Proper;
    hide IsEmpty;
    hide Meet;
    hide DimsClash;
  }

  /** The new dimension clashes with the one held exactly when it clashes with one given. */
  lemma DimsStep(es: seq<Entry>, st: State)
    requires |es| > 0 && es[|es| - 1].name in st.acc
    requires Agreed(es[..|es| - 1], es[|es| - 1].name) && Faithful(es[..|es| - 1], es[|es| - 1].name, st.acc)
    ensures DimsClash(es[|es| - 1].a.dim, st.acc[es[|es| - 1].name].a.dim) <==> !DimsAgree(es, es[|es| - 1].name)
  {
    var front, last, e := es[..|es| - 1], |es| - 1, es[|es| - 1];
    var s := e.name;
    assert forall i: nat :: At(es, i, s) <==> i == last || At(front, i, s);
    assert forall i: nat :: At(front, i, s) ==> es[i] == front[i];
    var d := st.acc[s].a.dim;
    if DimsClash(e.a.dim, d) {
      var i: nat :| At(front, i, s) && front[i].a.dim == d;
      assert At(es, i, s) && At(es, last, s);
    }
    hide Contains;
    hide Proper;
    hide IsEmpty;
  }

  lemma MeetExact(a: Ival, b: Ival)
    requires (IsEmpty(a) || Proper(a)) && (IsEmpty(b) || Proper(b))
    ensures IsEmpty(Meet(a, b)) || Proper(Meet(a, b))
    ensures forall x :: Contains(Meet(a, b), x) <==> Contains(a, x) && Contains(b, x)
    ensures !IsEmpty(Meet(a, b)) <==> exists x :: Contains(a, x) && Contains(b, x)
  {
    ProperMeaning(Meet(a, b));
    forall x
      ensures Contains(Meet(a, b), x) <==> Contains(a, x) && Contains(b, x)
    {
      MeetSound(a, b, x);
    }
  }

  // ----- ranges that hold no number and are not empty -----

  /** All ranges are r, or empty, or hold some number. */
  predicate RangedBut(es: seq<Entry>, r: Ival) {
    forall i :: 0 <= i < |es| ==> es[i].a.range == r || EmptyOrProper(es[i].a.range)
  }

  function AnyAnd(s: Name, r: Ival): seq<Entry> {
    [Entry(s, s, Assign(ENTIRE, None)), Entry(s, s, Assign(r, None))]
  }

  lemma MeetOfAny(r: Ival)
    requires !EmptyOrProper(r)
    ensures !IsEmpty(Meet(ENTIRE, r))
  {
  }

  /** Such a range is glued to the whole line without a conflict. */
  lemma OddRangeGlues(s: Name, r: Ival)
    requires !EmptyOrProper(r)
    ensures |Run(AnyAnd(s, r)).conflicts| == 0 && !Agreed(AnyAnd(s, r), s)
  {
    var es := AnyAnd(s, r);
    assert es[..1] == [es[0]] && es[..1][..0] == [];
    assert Run(es[..1]) == Step(Start(), es[0]);
    MeetOfAny(r);
    assert At(es, 0, s) && At(es, 1, s);
    ProperMeaning(r);
  }

  /** A kind of range may be given besides proper and empty ones, and conflicts still show exactly
      the disagreements, exactly when it is itself proper or empty. */
  lemma RangesExactly(s: Name, r: Ival)
    ensures (forall es :: RangedBut(es, r) ==> (|Run(es).conflicts| == 0 <==> AllAgreed(es))) <==> EmptyOrProper(r)
  {
    hide Run;
    hide Agreed;
    hide IsEmpty;
    hide Proper;
    if EmptyOrProper(r) {
      forall es | RangedBut(es, r)
        ensures |Run(es).conflicts| == 0 <==> AllAgreed(es)
      {
        GluedExactly(es);
      }
    } else {
      OddRangeGlues(s, r);
      assert EmptyOrProper(ENTIRE) by { AnyIsProper(); }
      assert RangedBut(AnyAnd(s, r), r);
    }
  }

  lemma AnyIsProper()
    ensures EmptyOrProper(ENTIRE)
  {
  }

  // ----- what is reported -----

  ghost predicate First(es: seq<Entry>, i: nat, s: Name) { At(es, i, s) && forall k: nat :: k < i ==> !At(es, k, s) }

  /** The region that has s first, and a later one that has it too. */
  ghost predicate Met(es: seq<Entry>, s: Name, first: Name, second: Name, j: nat) {
    At(es, j, s) && es[j].region == second && exists i: nat :: i < j && First(es, i, s) && es[i].region == first
  }

  /** At j a dimension is not one given before, or no number is left in all ranges up to there. */
  ghost predicate Clashes(es: seq<Entry>, s: Name, kind: Kind, j: nat) {
    match kind
    case Dimension => At(es, j, s) && exists k: nat :: k < j && At(es, k, s) && DimsClash(es[j].a.dim, es[k].a.dim)
    case Range => j < |es| && NothingInAll(es[..j + 1], s)
  }

  ghost predicate NothingInAll(es: seq<Entry>, s: Name) { forall x :: !InAll(es, s, x) }

  ghost predicate Justified(es: seq<Entry>, c: Conflict) {
    exists j: nat :: Met(es, c.symbol, c.first, c.second, j) && Clashes(es, c.symbol, c.kind, j)
  }

  /** What is held of s goes back to what was given, and its range leaves out nothing in all ranges. */
  ghost predicate Rooted(es: seq<Entry>, acc: map<Name, Held>, s: Name) {
    && (s in acc <==> exists i: nat :: At(es, i, s))
    && (s in acc ==>
          && (exists i: nat :: First(es, i, s) && es[i].region == acc[s].region)
          && (acc[s].a.dim.Some? ==> exists k: nat :: At(es, k, s) && es[k].a.dim == acc[s].a.dim)
          && (forall x :: InAll(es, s, x) ==> Contains(acc[s].a.range, x)))
  }

  lemma StaysMet(es: seq<Entry>, front: seq<Entry>, s: Name, first: Name, second: Name, kind: Kind, j: nat)
    requires |es| > 0 && front == es[..|es| - 1] && j < |front|
    ensures Met(front, s, first, second, j) <==> Met(es, s, first, second, j)
    ensures Clashes(front, s, kind, j) <==> Clashes(es, s, kind, j)
  {
    SameFirst(es, front, s);
    forall i: nat | i < |front| ensures At(es, i, s) <==> At(front, i, s) { }
    assert front[..j + 1] == es[..j + 1];
    hide DimsClash;
    hide InAll;
    hide First;
    if Clashes(es, s, kind, j) && kind.Dimension? {
      var k: nat :| k < j && At(es, k, s) && DimsClash(es[j].a.dim, es[k].a.dim);
      assert At(front, k, s);
    }
  }

  lemma StaysRooted(es: seq<Entry>, st: State, s: Name)
    requires |es| > 0 && Rooted(es[..|es| - 1], st.acc, s) && s != es[|es| - 1].name
    ensures Rooted(es, Step(st, es[|es| - 1]).acc, s)
  {
    var front := es[..|es| - 1];
    assert forall i: nat :: At(front, i, s) <==> At(es, i, s);
    assert forall i: nat :: At(front, i, s) ==> es[i] == front[i];
    assert forall i: nat :: First(front, i, s) ==> First(es, i, s);
    assert forall x :: InAll(front, s, x) <==> InAll(es, s, x);
    var acc2 := Step(st, es[|es| - 1]).acc;
    assert (s in acc2 <==> s in st.acc) && (s in st.acc ==> acc2[s] == st.acc[s]);
    hide Step;
    hide Contains;
    hide InAll;
  }

  lemma BecomesRooted(es: seq<Entry>, st: State)
    requires |es| > 0 && Rooted(es[..|es| - 1], st.acc, es[|es| - 1].name)
    ensures Rooted(es, Step(st, es[|es| - 1]).acc, es[|es| - 1].name)
  {
    var front, last, e := es[..|es| - 1], |es| - 1, es[|es| - 1];
    var s := e.name;
    assert forall i: nat :: At(es, i, s) <==> i == last || At(front, i, s);
    assert forall i: nat :: At(front, i, s) ==> es[i] == front[i];
    assert forall i: nat :: First(front, i, s) ==> First(es, i, s);
    assert forall x :: InAll(es, s, x) <==> InAll(front, s, x) && Contains(e.a.range, x);
    if s !in st.acc {
      assert First(es, last, s);
      hide Contains;
    } else {
      var held := st.acc[s].a;
      forall x | InAll(es, s, x)
        ensures Contains(held.range, x) && Contains(Meet(held.range, e.a.range), x)
      {
        MeetSound(held.range, e.a.range, x);
      }
      hide Contains;
      hide Meet;
      hide InAll;
      hide IsEmpty;
    }
  }

  /** Each symbol that comes again is a match with the region that had it first, and each conflict is with
      that region, over a dimension given before or over ranges without a common number. */
  lemma {:induction false} RunReports(es: seq<Entry>)
    ensures forall s, first, second ::
      (s, first, second) in Run(es).matches <==> exists j: nat :: Met(es, s, first, second, j)
    ensures forall c :: c in Run(es).conflicts ==> Justified(es, c)
    ensures forall s :: Rooted(es, Run(es).acc, s)
  {
    if |es| > 0 {
      var front, e := es[..|es| - 1], es[|es| - 1];
      RunReports(front);
      StepMatches(es, front, Run(front));
      StepConflicts(es, Run(front));
      forall s ensures Rooted(es, Run(es).acc, s) {
        if s == e.name { BecomesRooted(es, Run(front)); } else { StaysRooted(es, Run(front), s); }
      }
    }
  }

  lemma LastMet(es: seq<Entry>, front: seq<Entry>, st: State, first: Name)
    requires |es| > 0 && front == es[..|es| - 1] && Rooted(front, st.acc, es[|es| - 1].name)
    ensures var e := es[|es| - 1];
      Met(es, e.name, first, e.region, |es| - 1) <==> e.name in st.acc && st.acc[e.name].region == first
  {
    var e := es[|es| - 1];
    var s := e.name;
    hide Contains;
    hide InAll;
    SameFirst(es, front, s);
    hide First;
    if s in st.acc {
      var i: nat :| First(front, i, s) && front[i].region == st.acc[s].region;
      assert First(es, i, s) && es[i] == front[i];
    }
  }

  lemma SameFirst(es: seq<Entry>, front: seq<Entry>, s: Name)
    requires |es| > 0 && front == es[..|es| - 1]
    ensures forall i: nat :: i < |front| ==> es[i] == front[i] && (First(front, i, s) <==> First(es, i, s))
    ensures forall i: nat :: First(es, i, s) && i < |front| ==> At(front, i, s)
    ensures forall i: nat, j: nat :: First(es, i, s) && First(es, j, s) ==> i == j
  {
    assert forall i: nat :: i < |front| ==> (At(front, i, s) <==> At(es, i, s));
  }

  lemma StepMatches(es: seq<Entry>, front: seq<Entry>, st: State)
    requires |es| > 0 && front == es[..|es| - 1] && Rooted(front, st.acc, es[|es| - 1].name)
    requires forall s, first, second ::
      (s, first, second) in st.matches <==> exists j: nat :: Met(front, s, first, second, j)
    ensures forall s, first, second ::
      (s, first, second) in Step(st, es[|es| - 1]).matches <==> exists j: nat :: Met(es, s, first, second, j)
  {
    var e := es[|es| - 1];
    forall s, first, second
      ensures (s, first, second) in Step(st, e).matches <==> exists j: nat :: Met(es, s, first, second, j)
    {
      LastMet(es, front, st, first);
      assert (s, first, second) in Step(st, e).matches <==>
        (s, first, second) in st.matches ||
        (e.name in st.acc && s == e.name && first == st.acc[s].region && second == e.region);
      hide Rooted;
      if j: nat :| Met(front, s, first, second, j) { StaysMet(es, front, s, first, second, Range, j); }
      if j: nat :| Met(es, s, first, second, j) {
        if j < |es| - 1 { StaysMet(es, front, s, first, second, Range, j); }
      }
    }
  }

  lemma StepConflicts(es: seq<Entry>, st: State)
    requires |es| > 0 && Rooted(es[..|es| - 1], st.acc, es[|es| - 1].name)
    requires forall c :: c in st.conflicts ==> Justified(es[..|es| - 1], c)
    ensures forall c :: c in Step(st, es[|es| - 1]).conflicts ==> Justified(es, c)
  {
    var front, last, e := es[..|es| - 1], |es| - 1, es[|es| - 1];
    forall c | c in Step(st, e).conflicts
      ensures Justified(es, c)
    {
      if c in st.conflicts {
        var j: nat :| Met(front, c.symbol, c.first, c.second, j) && Clashes(front, c.symbol, c.kind, j);
        StaysMet(es, front, c.symbol, c.first, c.second, c.kind, j);
      } else {
        LastMet(es, front, st, c.first);
        LastClashes(es, st, c);
      }
    }
  }

  lemma NothingShared(a: Ival, b: Ival, x: real)
    requires IsEmpty(Meet(a, b))
    ensures !Contains(a, x) || !Contains(b, x)
  {
    MeetSound(a, b, x);
  }

  lemma LastClashes(es: seq<Entry>, st: State, c: Conflict)
    requires |es| > 0 && Rooted(es[..|es| - 1], st.acc, es[|es| - 1].name)
    requires c !in st.conflicts && c in Step(st, es[|es| - 1]).conflicts
    ensures Clashes(es, c.symbol, c.kind, |es| - 1) && es[|es| - 1].name in st.acc
    ensures c.symbol == es[|es| - 1].name && c.second == es[|es| - 1].region && c.first == st.acc[c.symbol].region
  {
    var front, last, e := es[..|es| - 1], |es| - 1, es[|es| - 1];
    var s := e.name;
    assert forall i: nat :: i < |front| ==> (At(front, i, s) <==> At(es, i, s)) && es[i] == front[i];
    assert es[..last + 1] == es;
    var held := st.acc[s].a;
    if c.kind.Range? {
      assert At(es, last, s);
      forall x ensures !InAll(es, s, x) {
        NothingShared(held.range, e.a.range, x);
        assert InAll(es, s, x) ==> InAll(front, s, x) && Contains(e.a.range, x);
      }
    } else {
      assert DimsClash(e.a.dim, held.dim);
      var k: nat :| At(front, k, s) && front[k].a.dim == held.dim;
      assert At(es, k, s) && At(es, last, s);
    }
  }
}
