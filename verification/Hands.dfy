/** Assigning hand candidates to body sides: greedy by score with a margin, and why ties cannot matter. */
module Hands {
  import opened Wrappers
  import opened RealMath

  datatype Side = Left | Right

  /** One scored pair; the score table lists each candidate and side at most once. */
  datatype Entry = Entry(candidate: nat, side: Side, score: real)

  /** `margin` is absent when there was no alternative at all. */
  datatype Association = Association(candidate: nat, score: real, margin: Option<real>)

  datatype State = State(out: map<Side, Association>, used: set<nat>)

  const EMPTY := State(map[], {})

  /** What an entry has to beat: its candidate's score on the other side, and unused rivals on its own side. */
  predicate Alternative(e: Entry, x: Entry, used: set<nat>) {
    || (x.candidate == e.candidate && x.side != e.side)
    || (x.side == e.side && x.candidate != e.candidate && x.candidate !in used)
  }

  /** The best of the first n items the entry has to beat. */
  function BestAlternative(items: seq<Entry>, e: Entry, used: set<nat>, n: nat): Option<real>
    requires n <= |items|
  {
    if n == 0 then None
    else
      var best := BestAlternative(items, e, used, n - 1);
      if !Alternative(e, items[n - 1], used) then best
      else if best.None? || items[n - 1].score > best.value then Some(items[n - 1].score)
      else best
  }

  /** The entry beats everything it has to beat by the margin. */
  predicate Clears(items: seq<Entry>, e: Entry, used: set<nat>, minMargin: real) {
    forall k | 0 <= k < |items| && Alternative(e, items[k], used) :: e.score - items[k].score >= minMargin
  }

  function Margin(items: seq<Entry>, e: Entry, used: set<nat>): Option<real> {
    var best := BestAlternative(items, e, used, |items|);
    if best.None? then None else Some(e.score - best.value)
  }

  lemma {:induction false} BestAlternativeIsBest(items: seq<Entry>, e: Entry, used: set<nat>, n: nat)
    requires n <= |items|
    ensures var best := BestAlternative(items, e, used, n);
            && (best.None? <==> forall k | 0 <= k < n :: !Alternative(e, items[k], used))
            && (best.Some? ==>
                  && (exists k | 0 <= k < n && Alternative(e, items[k], used) :: items[k].score == best.value)
                  && (forall k | 0 <= k < n && Alternative(e, items[k], used) :: items[k].score <= best.value))
  {
    hide Alternative;
    if n > 0 {
      BestAlternativeIsBest(items, e, used, n - 1);
    }
  }

  /** Testing the one best alternative tests them all. */
  lemma MarginIsClearance(items: seq<Entry>, e: Entry, used: set<nat>, minMargin: real)
    ensures (Margin(items, e, used).None? || Margin(items, e, used).value >= minMargin) <==> Clears(items, e, used, minMargin)
  {
    BestAlternativeIsBest(items, e, used, |items|);
    hide Alternative, BestAlternative;
  }

  // --- the greedy pass as a fold -------------------------------------------------------------------------

  function Step(items: seq<Entry>, minMargin: real, s: State, e: Entry): State {
    if e.side in s.out || e.candidate in s.used then s
    else
      var margin := Margin(items, e, s.used);
      if margin.Some? && margin.value < minMargin then s
      else State(s.out[e.side := Association(e.candidate, e.score, margin)], s.used + {e.candidate})
  }

  function Run(items: seq<Entry>, minMargin: real, s: State, order: seq<Entry>): State
    decreases |order|
  {
    if order == [] then s else Run(items, minMargin, Step(items, minMargin, s, order[0]), order[1..])
  }

  predicate ByScore(order: seq<Entry>) {
    forall i, j | 0 <= i < j < |order| :: order[i].score >= order[j].score
  }

  /** A processing order the sort may produce: all entries, best first, ties in any order. */
  predicate Order(items: seq<Entry>, order: seq<Entry>) {
    multiset(order) == multiset(items) && ByScore(order)
  }

  function InsertByScore(sorted: seq<Entry>, e: Entry): seq<Entry> {
    if sorted == [] || sorted[|sorted| - 1].score >= e.score then sorted + [e]
    else InsertByScore(sorted[..|sorted| - 1], e) + [sorted[|sorted| - 1]]
  }

  /** The stable sort by descending score. */
  function Sorted(items: seq<Entry>): seq<Entry> {
    if items == [] then [] else InsertByScore(Sorted(items[..|items| - 1]), items[|items| - 1])
  }

  lemma {:induction false} InsertByScoreSorts(sorted: seq<Entry>, e: Entry)
    requires ByScore(sorted)
    ensures ByScore(InsertByScore(sorted, e))
    ensures multiset(InsertByScore(sorted, e)) == multiset(sorted) + multiset{e}
  {
    if sorted != [] && sorted[|sorted| - 1].score < e.score {
      var front, last := sorted[..|sorted| - 1], sorted[|sorted| - 1];
      InsertByScoreSorts(front, e);
      assert sorted == front + [last];
      AppendByScore(front, e, InsertByScore(front, e), last);
    }
  }

  lemma AppendByScore(front: seq<Entry>, e: Entry, r: seq<Entry>, last: Entry)
    requires ByScore(r) && multiset(r) == multiset(front) + multiset{e}
    requires e.score >= last.score && forall i | 0 <= i < |front| :: front[i].score >= last.score
    ensures ByScore(r + [last])
  {
    forall i | 0 <= i < |r|
      ensures r[i].score >= last.score
    {
      assert r[i] in multiset(r);
      assert r[i] in multiset(front) || r[i] == e;
    }
  }

  lemma {:induction false} SortedIsOrder(items: seq<Entry>)
    ensures Order(items, Sorted(items))
  {
    if items != [] {
      var front := items[..|items| - 1];
      SortedIsOrder(front);
      InsertByScoreSorts(Sorted(front), items[|items| - 1]);
      assert items == front + [items[|items| - 1]];
    }
  }

  // --- the method -----------------------------------------------------------------------------------------------

  /** Greedy over the sorted table, recording each assignment as it is made. */
  method AssociateHands(items: seq<Entry>, minMargin: real) returns (out: map<Side, Association>)
    ensures out == Run(items, minMargin, EMPTY, Sorted(items)).out
  {
    out := map[];
    var used: set<nat> := {};
    var order := Sorted(items);
    hide Sorted, Step;
    for n := 0 to |order|
      invariant Run(items, minMargin, EMPTY, order) == Run(items, minMargin, State(out, used), order[n..])
    {
      var e := order[n];
      assert order[n..][0] == e && order[n..][1..] == order[n + 1..];
      StepCases(items, minMargin, State(out, used), e);
      if e.side in out || e.candidate in used {
        continue;
      }
      var best: Option<real> := None;
      for k := 0 to |items|
        invariant best == BestAlternative(items, e, used, k)
      {
        var x := items[k];
        if Alternative(e, x, used) && (best.None? || x.score > best.value) {
          best := Some(x.score);
        }
      }
      if best.Some? && e.score - best.value < minMargin {
        continue;
      }
      out := out[e.side := Association(e.candidate, e.score, if best.None? then None else Some(e.score - best.value))];
      used := used + {e.candidate};
    }
  }

  lemma StepCases(items: seq<Entry>, minMargin: real, s: State, e: Entry)
    ensures var best := BestAlternative(items, e, s.used, |items|);
            var margin := if best.None? then None else Some(e.score - best.value);
            Step(items, minMargin, s, e) ==
              if e.side in s.out || e.candidate in s.used || (margin.Some? && margin.value < minMargin) then s
              else State(s.out[e.side := Association(e.candidate, e.score, margin)], s.used + {e.candidate})
  {
  }

  // --- what an assignment promises ---------------------------------------------------------------------------------

  /** Candidates in use are exactly the assigned ones, each on one side only, with its score from the table. */
  ghost predicate Consistent(items: seq<Entry>, s: State) {
    && (forall c :: c in s.used <==> exists side :: side in s.out && s.out[side].candidate == c)
    && (forall a, b | a in s.out && b in s.out && s.out[a].candidate == s.out[b].candidate :: a == b)
    && (forall side | side in s.out :: Entry(s.out[side].candidate, side, s.out[side].score) in items)
  }

  /** Each assignment beats its own other-side score and every candidate still unused. */
  predicate Clear(items: seq<Entry>, minMargin: real, s: State) {
    forall side | side in s.out ::
      Clears(items, Entry(s.out[side].candidate, side, s.out[side].score), s.used, minMargin)
  }

  lemma FewerAlternatives(items: seq<Entry>, e: Entry, used: set<nat>, more: set<nat>, minMargin: real)
    requires Clears(items, e, used, minMargin) && used <= more
    ensures Clears(items, e, more, minMargin)
  {
  }

  lemma StepPromises(items: seq<Entry>, minMargin: real, s: State, e: Entry)
    requires Consistent(items, s) && Clear(items, minMargin, s) && e in items
    ensures var t := Step(items, minMargin, s, e); Consistent(items, t) && Clear(items, minMargin, t)
  {
    var t := Step(items, minMargin, s, e);
    MarginIsClearance(items, e, s.used, minMargin);
    hide Margin;
    if t != s {
      assert t.out.Keys == s.out.Keys + {e.side};
      StepConsistent(items, s, e, t);
      hide Consistent;
      forall side | side in t.out
        ensures Clears(items, Entry(t.out[side].candidate, side, t.out[side].score), t.used, minMargin)
      {
        var a := Entry(t.out[side].candidate, side, t.out[side].score);
        if side == e.side {
          assert a == e;
        }
        hide Clears;
        FewerAlternatives(items, a, s.used, t.used, minMargin);
      }
    }
  }

  lemma StepConsistent(items: seq<Entry>, s: State, e: Entry, t: State)
    requires Consistent(items, s) && e in items && e.side !in s.out && e.candidate !in s.used
    requires t.used == s.used + {e.candidate} && t.out.Keys == s.out.Keys + {e.side}
    requires t.out[e.side].candidate == e.candidate && t.out[e.side].score == e.score
    requires forall side | side in s.out :: t.out[side] == s.out[side]
    ensures Consistent(items, t)
  {
    forall c
      ensures c in t.used <==> exists side :: side in t.out && t.out[side].candidate == c
    {
      if c in s.used {
        var side :| side in s.out && s.out[side].candidate == c;
        assert side in t.out && t.out[side].candidate == c;
      } else if c == e.candidate {
        assert e.side in t.out && t.out[e.side].candidate == c;
      }
    }
  }

  /**
   * Whatever the order: no candidate serves two sides, every assignment is an entry of the table, and it beats its
   * candidate's score on the other side and every candidate left unused by at least the margin.
   */
  lemma {:induction false} RunPromises(items: seq<Entry>, minMargin: real, s: State, order: seq<Entry>)
    requires Consistent(items, s) && Clear(items, minMargin, s)
    requires forall i | 0 <= i < |order| :: order[i] in items
    ensures var t := Run(items, minMargin, s, order); Consistent(items, t) && Clear(items, minMargin, t)
    decreases |order|
  {
    if order != [] {
      StepPromises(items, minMargin, s, order[0]);
      hide Consistent, Clear, Step;
      RunPromises(items, minMargin, Step(items, minMargin, s, order[0]), order[1..]);
    }
  }

  lemma EmptyPromises(items: seq<Entry>, minMargin: real)
    ensures Consistent(items, EMPTY) && Clear(items, minMargin, EMPTY)
  {
  }

  lemma OrderFromItems(items: seq<Entry>, order: seq<Entry>)
    requires Order(items, order)
    ensures forall i | 0 <= i < |order| :: order[i] in items
    ensures forall x | x in items :: x in order
  {
    forall i | 0 <= i < |order|
      ensures order[i] in items
    {
      assert order[i] in multiset(order);
      assert order[i] in multiset(items);
    }
    forall x | x in items
      ensures x in order
    {
      assert x in multiset(items);
      assert x in multiset(order);
    }
  }

  /** So the answer keeps these promises however the sort breaks ties. */
  lemma AnswerPromises(items: seq<Entry>, minMargin: real, order: seq<Entry>)
    requires Order(items, order)
    ensures var t := Run(items, minMargin, EMPTY, order); Consistent(items, t) && Clear(items, minMargin, t)
  {
    OrderFromItems(items, order);
    EmptyPromises(items, minMargin);
    RunPromises(items, minMargin, EMPTY, order);
  }

  // --- the margin over any other candidate ----------------------------------------------------------------------------

  /** An accepted entry beats all its alternatives, used or not, exactly when it beats the used rivals for its side. */
  lemma FullMarginAtStep(items: seq<Entry>, minMargin: real, s: State, e: Entry)
    requires Accepts(items, minMargin, s, e)
    ensures Clears(items, e, {}, minMargin)
            <==> forall x | x in items && x.side == e.side && x.candidate != e.candidate && x.candidate in s.used ::
                   e.score - x.score >= minMargin
  {
    forall x | x in items && x.side == e.side && x.candidate != e.candidate && x.candidate in s.used
      ensures Clears(items, e, {}, minMargin) ==> e.score - x.score >= minMargin
    {
      var k :| 0 <= k < |items| && items[k] == x;
      assert Alternative(e, items[k], {});
    }
    forall k | 0 <= k < |items| && Alternative(e, items[k], {})
      ensures items[k].candidate !in s.used || items[k].side != e.side ==> e.score - items[k].score >= minMargin
    {
      assert items[k].candidate !in s.used || items[k].side != e.side ==> Alternative(e, items[k], s.used);
    }
  }

  function Winner(s: State, side: Side): Entry
    requires side in s.out
  {
    Entry(s.out[side].candidate, side, s.out[side].score)
  }

  /** The documented margin: every assignment beats every alternative, used candidates included. */
  predicate FullMargin(items: seq<Entry>, minMargin: real, s: State) {
    forall side | side in s.out :: Clears(items, Winner(s, side), {}, minMargin)
  }

  /** Each side's winner beats what the other side's winner scored on this side. */
  predicate BeatsOtherWinner(items: seq<Entry>, minMargin: real, s: State) {
    forall a, b, x | a in s.out && b in s.out && a != b && x in items && x.side == a && x.candidate == s.out[b].candidate ::
      s.out[a].score - x.score >= minMargin
  }

  lemma FullMarginOf(items: seq<Entry>, minMargin: real, s: State)
    requires Consistent(items, s) && Clear(items, minMargin, s)
    ensures FullMargin(items, minMargin, s) <==> BeatsOtherWinner(items, minMargin, s)
  {
    hide Consistent, Clears, Alternative;
    if BeatsOtherWinner(items, minMargin, s) {
      forall side | side in s.out
        ensures Clears(items, Winner(s, side), {}, minMargin)
      {
        BeatsAll(items, minMargin, s, side);
      }
    }
    if FullMargin(items, minMargin, s) {
      forall a, b, x | a in s.out && b in s.out && a != b && x in items && x.side == a && x.candidate == s.out[b].candidate
        ensures s.out[a].score - x.score >= minMargin
      {
        assert Clears(items, Winner(s, a), {}, minMargin);
        WinnersDiffer(items, s, a, b);
        ClearsEntry(items, Winner(s, a), x, minMargin);
      }
    }
  }

  lemma WinnersDiffer(items: seq<Entry>, s: State, a: Side, b: Side)
    requires Consistent(items, s) && a in s.out && b in s.out && a != b
    ensures s.out[a].candidate != s.out[b].candidate
  {
  }

  lemma ClearsEntry(items: seq<Entry>, e: Entry, x: Entry, minMargin: real)
    requires Clears(items, e, {}, minMargin) && x in items && x.side == e.side && x.candidate != e.candidate
    ensures e.score - x.score >= minMargin
  {
    var k :| 0 <= k < |items| && items[k] == x;
    assert Alternative(e, items[k], {});
  }

  lemma BeatsAll(items: seq<Entry>, minMargin: real, s: State, side: Side)
    requires Consistent(items, s) && side in s.out && Clears(items, Winner(s, side), s.used, minMargin)
    requires BeatsOtherWinner(items, minMargin, s)
    ensures Clears(items, Winner(s, side), {}, minMargin)
  {
    var e := Winner(s, side);
    forall k | 0 <= k < |items| && Alternative(e, items[k], {})
      ensures e.score - items[k].score >= minMargin
    {
      if !Alternative(e, items[k], s.used) {
        var b :| b in s.out && s.out[b].candidate == items[k].candidate;
        assert b != side && items[k] in items;
      }
    }
  }

  /** The answer has the documented margin exactly when neither winner is beaten to it by the other on its own side. */
  lemma FullMarginOfAnswer(items: seq<Entry>, minMargin: real, order: seq<Entry>)
    requires Order(items, order)
    ensures var t := Run(items, minMargin, EMPTY, order);
            FullMargin(items, minMargin, t) <==> BeatsOtherWinner(items, minMargin, t)
  {
    hide Order, Consistent, Clear, FullMargin, BeatsOtherWinner, Run;
    AnswerPromises(items, minMargin, order);
    FullMarginOf(items, minMargin, Run(items, minMargin, EMPTY, order));
  }

  /** Candidates used on the other side are not compared: here candidate 1 wins a side it scores lower on. */
  lemma UsedRivalIgnored()
    ensures var items := [Entry(0, Left, 2.0), Entry(0, Right, 1.5), Entry(1, Right, 1.0)];
            var out := Run(items, 0.25, EMPTY, items).out;
            && Order(items, items) && Right in out && out[Right].candidate == 1
            && items[1].side == Right && items[1].score > out[Right].score
  {
    var items := [Entry(0, Left, 2.0), Entry(0, Right, 1.5), Entry(1, Right, 1.0)];
    var s1 := Step(items, 0.25, EMPTY, items[0]);
    MarginIsClearance(items, items[0], {}, 0.25);
    assert s1.used == {0} && s1.out.Keys == {Left};
    var s2 := Step(items, 0.25, s1, items[1]);
    assert s2 == s1;
    MarginIsClearance(items, items[2], {0}, 0.25);
    var s3 := Step(items, 0.25, s2, items[2]);
    assert s3.out[Right].candidate == 1;
    assert items[1..] == [items[1], items[2]] && items[1..][1..] == [items[2]] && [items[2]][1..] == [];
    hide Step;
    assert Run(items, 0.25, s3, []) == s3;
    assert Run(items, 0.25, s2, [items[2]]) == s3;
    assert Run(items, 0.25, s1, items[1..]) == s3;
  }

  // --- ties cannot matter ------------------------------------------------------------------------------------------

  /** The same sides assigned to the same candidates; only the recorded margins may differ. */
  predicate SameChoice(s: State, t: State) {
    && s.used == t.used && s.out.Keys == t.out.Keys
    && forall side | side in s.out ::
         s.out[side].candidate == t.out[side].candidate && s.out[side].score == t.out[side].score
  }

  predicate Accepts(items: seq<Entry>, minMargin: real, s: State, e: Entry) {
    e.side !in s.out && e.candidate !in s.used && Clears(items, e, s.used, minMargin)
  }

  /** A step is an acceptance or nothing. */
  lemma StepIs(items: seq<Entry>, minMargin: real, s: State, e: Entry)
    ensures var t := Step(items, minMargin, s, e);
            if Accepts(items, minMargin, s, e) then
              && t.used == s.used + {e.candidate} && t.out.Keys == s.out.Keys + {e.side}
              && t.out[e.side].candidate == e.candidate && t.out[e.side].score == e.score
              && forall side | side in s.out :: t.out[side] == s.out[side]
            else t == s
  {
    MarginIsClearance(items, e, s.used, minMargin);
    hide Margin, Clears;
  }

  lemma StepRespectsChoice(items: seq<Entry>, minMargin: real, s: State, t: State, e: Entry)
    requires SameChoice(s, t)
    ensures SameChoice(Step(items, minMargin, s, e), Step(items, minMargin, t, e))
  {
    StepIs(items, minMargin, s, e);
    StepIs(items, minMargin, t, e);
    hide Step, Clears;
  }

  lemma {:induction false} RunRespectsChoice(items: seq<Entry>, minMargin: real, s: State, t: State, order: seq<Entry>)
    requires SameChoice(s, t)
    ensures SameChoice(Run(items, minMargin, s, order), Run(items, minMargin, t, order))
    decreases |order|
  {
    if order != [] {
      StepRespectsChoice(items, minMargin, s, t, order[0]);
      hide SameChoice, Step;
      RunRespectsChoice(items, minMargin, Step(items, minMargin, s, order[0]), Step(items, minMargin, t, order[0]), order[1..]);
    }
  }

  lemma Blocks(items: seq<Entry>, e: Entry, x: Entry, used: set<nat>, minMargin: real)
    requires x in items && Alternative(e, x, used) && e.score - x.score < minMargin
    ensures !Clears(items, e, used, minMargin)
  {
    var k :| 0 <= k < |items| && items[k] == x;
    hide Alternative;
    assert Alternative(e, items[k], used);
  }

  /** Of two tied entries for one candidate neither is ever accepted; of two for one side at most the other's candidate is used. */
  lemma TiedRivals(items: seq<Entry>, minMargin: real, s: State, a: Entry, b: Entry)
    requires minMargin > 0.0 && a in items && b in items && a.score == b.score
    requires (a.candidate == b.candidate) != (a.side == b.side)
    ensures Accepts(items, minMargin, s, a) ==> a.candidate != b.candidate && b.candidate in s.used
  {
    if Accepts(items, minMargin, s, a) && (a.candidate == b.candidate || b.candidate !in s.used) {
      Blocks(items, a, b, s.used, minMargin);
    }
  }

  /** Accepting one of two tied entries for different sides and candidates does not change whether the other is accepted. */
  lemma TiedStrangers(items: seq<Entry>, minMargin: real, s: State, a: Entry, b: Entry)
    requires a.candidate != b.candidate && a.side != b.side && a.score == b.score
    ensures Accepts(items, minMargin, Step(items, minMargin, s, a), b) == Accepts(items, minMargin, s, b)
  {
    var t := Step(items, minMargin, s, a);
    StepIs(items, minMargin, s, a);
    hide Step;
    if Accepts(items, minMargin, s, a) {
      if Accepts(items, minMargin, t, b) {
        forall k | 0 <= k < |items| && Alternative(b, items[k], s.used)
          ensures b.score - items[k].score >= minMargin
        {
          if !Alternative(b, items[k], t.used) {
            assert items[k].candidate == a.candidate && items[k].side == b.side;
            assert Alternative(a, items[k], s.used);
          }
        }
      }
      if Accepts(items, minMargin, s, b) {
        FewerAlternatives(items, b, s.used, t.used, minMargin);
      }
    }
  }

  /** Two neighbouring tied entries may be processed in either order. */
  lemma SwapTied(items: seq<Entry>, minMargin: real, s: State, a: Entry, b: Entry)
    requires minMargin > 0.0 && a in items && b in items && a.score == b.score
    ensures SameChoice(Step(items, minMargin, Step(items, minMargin, s, a), b),
                       Step(items, minMargin, Step(items, minMargin, s, b), a))
  {
    var sa, sb := Step(items, minMargin, s, a), Step(items, minMargin, s, b);
    StepIs(items, minMargin, s, a);
    StepIs(items, minMargin, s, b);
    StepIs(items, minMargin, sa, b);
    StepIs(items, minMargin, sb, a);
    if a.candidate == b.candidate && a.side == b.side {
      assert a == b;
    } else if a.candidate == b.candidate || a.side == b.side {
      TiedRivals(items, minMargin, s, a, b);
      TiedRivals(items, minMargin, s, b, a);
      TiedRivals(items, minMargin, sa, b, a);
      TiedRivals(items, minMargin, sb, a, b);
      hide Step, Clears;
    } else {
      TiedStrangers(items, minMargin, s, a, b);
      TiedStrangers(items, minMargin, s, b, a);
      hide Step, Clears;
    }
  }

  /** A tied entry can be pulled in front of everything tied with it. */
  lemma {:induction false} PullForward(items: seq<Entry>, minMargin: real, s: State, tied: seq<Entry>, e: Entry, rest: seq<Entry>)
    requires minMargin > 0.0 && e in items
    requires forall i | 0 <= i < |tied| :: tied[i] in items && tied[i].score == e.score
    ensures SameChoice(Run(items, minMargin, s, tied + [e] + rest), Run(items, minMargin, s, [e] + tied + rest))
    decreases |tied|
  {
    hide Step;
    if tied == [] {
      assert tied + [e] + rest == [e] + tied + rest;
    } else {
      var x, more := tied[0], tied[1..];
      var sx, se := Step(items, minMargin, s, x), Step(items, minMargin, s, e);
      assert (tied + [e] + rest)[1..] == more + [e] + rest;
      PullForward(items, minMargin, sx, more, e, rest);
      assert ([e] + more + rest)[1..] == more + rest;
      assert ([e] + tied + rest)[1..] == tied + rest && (tied + rest)[1..] == more + rest;
      SwapTied(items, minMargin, s, x, e);
      RunRespectsChoice(items, minMargin, Step(items, minMargin, sx, e), Step(items, minMargin, se, x), more + rest);
    }
  }

  lemma SplitAt(order: seq<Entry>, e: Entry) returns (k: nat)
    requires e in multiset(order)
    ensures k < |order| && order[k] == e && order == order[..k] + [e] + order[k + 1..]
  {
    assert e in order;
    k :| 0 <= k < |order| && order[k] == e;
  }

  lemma RemoveKeepsOrder(order: seq<Entry>, k: nat)
    requires k < |order| && ByScore(order)
    ensures ByScore(order[..k] + order[k + 1..])
  {
    var rest := order[..k] + order[k + 1..];
    forall i, j | 0 <= i < j < |rest|
      ensures rest[i].score >= rest[j].score
    {
      assert rest[i] == order[if i < k then i else i + 1] && rest[j] == order[if j < k then j else j + 1];
    }
  }

  lemma RemoveOne(order: seq<Entry>, k: nat)
    requires k < |order|
    ensures multiset(order[..k] + order[k + 1..]) == multiset(order) - multiset{order[k]}
    ensures ByScore(order) ==> ByScore(order[..k] + order[k + 1..])
  {
    if ByScore(order) {
      RemoveKeepsOrder(order, k);
    }
    hide ByScore;
    assert multiset(order) == multiset(order[..k]) + multiset{order[k]} + multiset(order[k + 1..]) by {
      assert order == order[..k] + [order[k]] + order[k + 1..];
    }
  }

  /** Any two descending orders of the same entries make the same choice. */
  lemma {:induction false} TiesDoNotMatter(items: seq<Entry>, minMargin: real, s: State, a: seq<Entry>, b: seq<Entry>)
    requires minMargin > 0.0 && multiset(a) == multiset(b) && ByScore(a) && ByScore(b)
    requires forall i | 0 <= i < |a| :: a[i] in items
    ensures SameChoice(Run(items, minMargin, s, a), Run(items, minMargin, s, b))
    decreases |a|
  {
    hide Step, SameChoice;
    if a == [] {
      assert |multiset(b)| == 0;
      ChoiceReflexive(Run(items, minMargin, s, a));
    } else {
      var e := a[0];
      assert e in multiset(a);
      var k := SplitAt(b, e);
      FrontIsTied(items, a, b, k);
      var rest := b[..k] + b[k + 1..];
      Removed(a, b, k);
      hide ByScore;
      assert [e] + b[..k] + b[k + 1..] == [e] + rest;
      PullForward(items, minMargin, s, b[..k], e, b[k + 1..]);
      assert ([e] + rest)[1..] == rest && ([e] + rest)[0] == e;
      TiesDoNotMatter(items, minMargin, Step(items, minMargin, s, e), a[1..], rest);
      SameChoiceTransitive(Run(items, minMargin, s, a), Run(items, minMargin, s, [e] + rest), Run(items, minMargin, s, b));
    }
  }

  lemma ChoiceReflexive(s: State)
    ensures SameChoice(s, s)
  {
  }

  lemma Removed(a: seq<Entry>, b: seq<Entry>, k: nat)
    requires a != [] && k < |b| && b[k] == a[0] && multiset(a) == multiset(b) && ByScore(a) && ByScore(b)
    ensures multiset(a[1..]) == multiset(b[..k] + b[k + 1..])
    ensures ByScore(a[1..]) && ByScore(b[..k] + b[k + 1..])
  {
    RemoveOne(b, k);
    assert a == [a[0]] + a[1..];
    hide ByScore;
    assert multiset(a) == multiset{a[0]} + multiset(a[1..]);
  }

  lemma SameChoiceTransitive(s: State, t: State, u: State)
    requires SameChoice(s, t) && (SameChoice(t, u) || SameChoice(u, t))
    ensures SameChoice(s, u)
  {
  }

  /** What precedes the other order's first entry is tied with it. */
  lemma FrontIsTied(items: seq<Entry>, a: seq<Entry>, b: seq<Entry>, k: nat)
    requires a != [] && multiset(a) == multiset(b) && ByScore(a) && ByScore(b) && k < |b| && b[k] == a[0]
    requires forall i | 0 <= i < |a| :: a[i] in items
    ensures a[0] in items && forall i | 0 <= i < k :: b[..k][i] in items && b[..k][i].score == a[0].score
  {
    forall i | 0 <= i < k
      ensures b[i] in items && b[i].score == a[0].score
    {
      assert b[i] in multiset(b);
      assert b[i] in multiset(a);
      var j :| 0 <= j < |a| && a[j] == b[i];
    }
  }

  /**
   * With a positive margin the assignment does not depend on how the sort breaks ties: every order by descending score
   * chooses the same candidates as the one processed.
   */
  lemma AssociationIsOrderFree(items: seq<Entry>, minMargin: real, order: seq<Entry>)
    requires minMargin > 0.0 && Order(items, order)
    ensures SameChoice(Run(items, minMargin, EMPTY, order), Run(items, minMargin, EMPTY, Sorted(items)))
  {
    SortedIsOrder(items);
    forall i | 0 <= i < |order|
      ensures order[i] in items
    {
      assert order[i] in multiset(order);
      assert order[i] in multiset(items);
    }
    hide Run, Sorted, SameChoice;
    TiesDoNotMatter(items, minMargin, EMPTY, order, Sorted(items));
  }

  // --- when the recorded margins agree too ------------------------------------------------------------------------------

  /** The best that e has to beat is the same once x's candidate is used. */
  predicate Unaffected(items: seq<Entry>, e: Entry, x: Entry, used: set<nat>) {
    BestAlternative(items, e, used, |items|) == BestAlternative(items, e, used + {x.candidate}, |items|)
  }

  function Assigned(items: seq<Entry>, s: State, e: Entry): State {
    State(s.out[e.side := Association(e.candidate, e.score, Margin(items, e, s.used))], s.used + {e.candidate})
  }

  lemma StepAssigns(items: seq<Entry>, minMargin: real, s: State, e: Entry)
    ensures Step(items, minMargin, s, e) == if Accepts(items, minMargin, s, e) then Assigned(items, s, e) else s
  {
    MarginIsClearance(items, e, s.used, minMargin);
    hide Margin, Clears;
  }

  lemma MarginUnaffected(items: seq<Entry>, e: Entry, x: Entry, used: set<nat>)
    ensures Margin(items, e, used) == Margin(items, e, used + {x.candidate}) <==> Unaffected(items, e, x, used)
  {
    hide BestAlternative;
  }

  /**
   * Two acceptable tied entries for different sides and candidates: both orders record the same exactly when neither
   * margin notices the other.
   */
  lemma TiedMargins(items: seq<Entry>, minMargin: real, s: State, a: Entry, b: Entry)
    requires a.candidate != b.candidate && a.side != b.side && a.score == b.score
    requires Accepts(items, minMargin, s, a) && Accepts(items, minMargin, s, b)
    ensures Step(items, minMargin, Step(items, minMargin, s, a), b) == Step(items, minMargin, Step(items, minMargin, s, b), a)
            <==> Unaffected(items, a, b, s.used) && Unaffected(items, b, a, s.used)
  {
    TiedStrangers(items, minMargin, s, a, b);
    TiedStrangers(items, minMargin, s, b, a);
    hide Step, Accepts, Margin, Unaffected;
    StepAssigns(items, minMargin, s, a);
    StepAssigns(items, minMargin, s, b);
    var sa, sb := Assigned(items, s, a), Assigned(items, s, b);
    StepAssigns(items, minMargin, sa, b);
    StepAssigns(items, minMargin, sb, a);
    MarginUnaffected(items, a, b, s.used);
    MarginUnaffected(items, b, a, s.used);
    var ab, ba := Assigned(items, sa, b), Assigned(items, sb, a);
    assert ab.out[a.side].margin == Margin(items, a, s.used) && ba.out[a.side].margin == Margin(items, a, s.used + {b.candidate});
    assert ba.out[b.side].margin == Margin(items, b, s.used) && ab.out[b.side].margin == Margin(items, b, s.used + {a.candidate});
    assert ab.used == ba.used;
    assert ab.out.Keys == ba.out.Keys == s.out.Keys + {a.side, b.side};
    if ab.out[a.side] == ba.out[a.side] && ab.out[b.side] == ba.out[b.side] {
      assert forall side | side in ab.out :: ab.out[side] == ba.out[side];
      assert ab.out == ba.out;
    }
  }

  /** The entries assigned, in order: none, one, or one for each side. */
  function Outcome(items: seq<Entry>, wins: seq<Entry>): State {
    if |wins| == 0 then EMPTY
    else if |wins| == 1 then Assigned(items, EMPTY, wins[0])
    else Assigned(items, Assigned(items, EMPTY, wins[0]), wins[1])
  }

  lemma {:induction false} BothSidesTaken(items: seq<Entry>, minMargin: real, s: State, order: seq<Entry>)
    requires Left in s.out && Right in s.out
    ensures Run(items, minMargin, s, order) == s
    decreases |order|
  {
    if order != [] {
      BothSidesTaken(items, minMargin, s, order[1..]);
    }
  }

  /** An entry for the other side and another candidate that clears what is left once f's candidate is used. */
  predicate Follows(items: seq<Entry>, minMargin: real, f: Entry, e: Entry) {
    e.side != f.side && e.candidate != f.candidate && Clears(items, e, {f.candidate}, minMargin)
  }

  lemma {:induction false} SecondWin(items: seq<Entry>, minMargin: real, f: Entry, order: seq<Entry>) returns (wins: seq<Entry>)
    ensures wins == [f]
            || (|wins| == 2 && wins[0] == f && wins[1] in order && wins[1].side != f.side && wins[1].candidate != f.candidate)
    ensures Run(items, minMargin, Assigned(items, EMPTY, f), order) == Outcome(items, wins)
    ensures |wins| == 2 ==> Clears(items, wins[1], {f.candidate}, minMargin)
    ensures |wins| == 1 ==> forall x | x in order :: !Follows(items, minMargin, f, x)
    decreases |order|
  {
    wins := [f];
    if order != [] {
      var s, e := Assigned(items, EMPTY, f), order[0];
      StepAssigns(items, minMargin, s, e);
      hide Step, Margin, Clears;
      assert s.used == {f.candidate};
      if Accepts(items, minMargin, s, e) {
        wins := [f, e];
        var t := Assigned(items, s, e);
        assert s.out.Keys == {f.side} && t.out.Keys == {f.side, e.side};
        assert f.side != e.side && (f.side.Left? || e.side.Left?) && (f.side.Right? || e.side.Right?);
        BothSidesTaken(items, minMargin, t, order[1..]);
      } else {
        wins := SecondWin(items, minMargin, f, order[1..]);
      }
    }
  }

  /** The first win is the best entry that clears everything; what follows is at most one win for the other side. */
  predicate Wins(items: seq<Entry>, minMargin: real, order: seq<Entry>, wins: seq<Entry>) {
    && |wins| <= 2
    && (forall i | 0 <= i < |wins| :: wins[i] in order)
    && (|wins| == 2 ==> wins[0].side != wins[1].side && wins[0].candidate != wins[1].candidate
                        && wins[0].score >= wins[1].score)
    && (wins != [] ==> Clears(items, wins[0], {}, minMargin) && NoneBetter(items, minMargin, order, wins[0]))
  }

  /** No entry of a higher score clears everything. */
  predicate NoneBetter(items: seq<Entry>, minMargin: real, order: seq<Entry>, e: Entry) {
    forall x | x in order && x.score > e.score :: !Clears(items, x, {}, minMargin)
  }

  /** All wins there are: nothing clears everything, or nothing later follows a lone win, or the second follows the first. */
  predicate Complete(items: seq<Entry>, minMargin: real, order: seq<Entry>, wins: seq<Entry>) {
    && (|wins| == 0 ==> forall x | x in order :: !Clears(items, x, {}, minMargin))
    && (|wins| == 1 ==> forall x | x in order && x.score < wins[0].score :: !Follows(items, minMargin, wins[0], x))
    && (|wins| == 2 ==> Clears(items, wins[1], {wins[0].candidate}, minMargin))
  }

  lemma {:induction false} WinsOf(items: seq<Entry>, minMargin: real, order: seq<Entry>) returns (wins: seq<Entry>)
    requires ByScore(order)
    ensures Wins(items, minMargin, order, wins) && Complete(items, minMargin, order, wins)
    ensures Run(items, minMargin, EMPTY, order) == Outcome(items, wins)
    decreases |order|
  {
    hide Step, Clears, Outcome;
    wins := [];
    assert Outcome(items, []) == EMPTY by { EmptyOutcome(items); }
    if order != [] {
      var e := order[0];
      StepAssigns(items, minMargin, EMPTY, e);
      if Clears(items, e, {}, minMargin) {
        wins := SecondWin(items, minMargin, e, order[1..]);
        assert forall x | x in order :: x.score <= e.score;
      } else {
        wins := WinsOf(items, minMargin, order[1..]);
      }
    }
  }

  lemma EmptyOutcome(items: seq<Entry>)
    ensures Outcome(items, []) == EMPTY
  {
  }

  /**
   * Two tied entries for different sides and candidates that clear everything, with no better entry that does, and one
   * of whose margins depends on which is assigned first.
   */
  predicate Contested(items: seq<Entry>, minMargin: real, l: Entry, r: Entry) {
    && l in items && r in items && l.side == Left && r.side == Right && l.candidate != r.candidate && l.score == r.score
    && Clears(items, l, {}, minMargin) && Clears(items, r, {}, minMargin) && NoneBetter(items, minMargin, items, l)
    && !(Unaffected(items, l, r, {}) && Unaffected(items, r, l, {}))
  }

  /** A state that has both contested entries assigned, whichever came first. */
  lemma ContestedOutcomes(items: seq<Entry>, minMargin: real, a: Entry, b: Entry, lo: seq<Entry>)
    requires a.candidate != b.candidate && a.side != b.side && a.score == b.score
    requires Clears(items, a, {}, minMargin) && Clears(items, b, {}, minMargin)
    ensures Run(items, minMargin, EMPTY, [a, b] + lo) == Step(items, minMargin, Step(items, minMargin, EMPTY, a), b)
    ensures Step(items, minMargin, Step(items, minMargin, EMPTY, a), b) == Outcome(items, [a, b])
  {
    TiedStrangers(items, minMargin, EMPTY, a, b);
    hide Step, Margin, Clears;
    StepAssigns(items, minMargin, EMPTY, a);
    var s := Assigned(items, EMPTY, a);
    StepAssigns(items, minMargin, s, b);
    var t := Assigned(items, s, b);
    assert t.out.Keys == {a.side, b.side};
    BothSidesTaken(items, minMargin, t, lo);
    assert ([a, b] + lo)[0] == a && ([a, b] + lo)[1..] == [b] + lo;
    assert ([b] + lo)[0] == b && ([b] + lo)[1..] == lo;
    assert Run(items, minMargin, s, [b] + lo) == Run(items, minMargin, t, lo);
  }

  lemma {:induction false} SkipPrefix(items: seq<Entry>, minMargin: real, hi: seq<Entry>, rest: seq<Entry>)
    requires forall i | 0 <= i < |hi| :: !Clears(items, hi[i], {}, minMargin)
    ensures Run(items, minMargin, EMPTY, hi + rest) == Run(items, minMargin, EMPTY, rest)
    decreases |hi|
  {
    hide Clears, Step;
    if hi == [] {
      assert hi + rest == rest;
    } else {
      StepAssigns(items, minMargin, EMPTY, hi[0]);
      assert (hi + rest)[1..] == hi[1..] + rest;
      SkipPrefix(items, minMargin, hi[1..], rest);
    }
  }

  /** The order rearranged: what is better than the two tied entries, these, and the rest. */
  predicate Together(order: seq<Entry>, a: Entry, b: Entry, hi: seq<Entry>, lo: seq<Entry>) {
    && multiset(order) == multiset(hi) + multiset{a, b} + multiset(lo)
    && (forall i | 0 <= i < |hi| :: hi[i] in order && hi[i].score > a.score)
    && ByScore(hi + [a, b] + lo) && ByScore(hi + [b, a] + lo)
  }

  /** Two tied entries can be brought together behind everything better, in either order. */
  lemma {:induction false} BringTogether(order: seq<Entry>, a: Entry, b: Entry) returns (hi: seq<Entry>, lo: seq<Entry>)
    requires ByScore(order) && a in order && b in order && a != b && a.score == b.score
    ensures Together(order, a, b, hi, lo)
    decreases |order|
  {
    hide ByScore, Together;
    var e, rest := order[0], order[1..];
    assert order == [e] + rest;
    HeadIsTop(order, a);
    if e.score > a.score {
      hi, lo := BringTogether(rest, a, b);
      Led(e, rest, a, b, hi, lo);
      hi := [e] + hi;
    } else {
      hi := [];
      lo := TopPair(order, a, b);
    }
  }

  lemma TakeOut(order: seq<Entry>, e: Entry) returns (others: seq<Entry>)
    requires ByScore(order) && e in multiset(order)
    ensures multiset(order) == multiset{e} + multiset(others) && ByScore(others)
  {
    var k := SplitAt(order, e);
    RemoveOne(order, k);
    others := order[..k] + order[k + 1..];
  }

  lemma HeadIsTop(order: seq<Entry>, a: Entry)
    requires ByScore(order) && a in order
    ensures order[0].score >= a.score && ByScore(order[1..])
  {
  }

  lemma TopPair(order: seq<Entry>, a: Entry, b: Entry) returns (lo: seq<Entry>)
    requires ByScore(order) && a in order && b in order && a != b && a.score == b.score == order[0].score
    ensures Together(order, a, b, [], lo)
  {
    var others := TakeOut(order, a);
    assert b in multiset(order);
    lo := TakeOut(others, b);
    forall i | 0 <= i < |lo|
      ensures lo[i].score <= a.score
    {
      assert lo[i] in multiset(lo);
      assert lo[i] in multiset(order);
    }
    assert [] + [a, b] + lo == [a, b] + lo && [] + [b, a] + lo == [b, a] + lo;
  }

  lemma Led(e: Entry, rest: seq<Entry>, a: Entry, b: Entry, hi: seq<Entry>, lo: seq<Entry>)
    requires ByScore([e] + rest) && Together(rest, a, b, hi, lo) && e.score > a.score
    ensures Together([e] + rest, a, b, [e] + hi, lo)
  {
    LedBy(e, rest, hi, a, b, lo);
    LedBy(e, rest, hi, b, a, lo);
    hide ByScore;
    assert multiset([e] + rest) == multiset{e} + multiset(rest);
    assert multiset([e] + hi) == multiset{e} + multiset(hi);
  }

  lemma LedBy(e: Entry, rest: seq<Entry>, hi: seq<Entry>, a: Entry, b: Entry, lo: seq<Entry>)
    requires ByScore([e] + rest) && ByScore(hi + [a, b] + lo)
    requires multiset(rest) == multiset(hi) + multiset{a, b} + multiset(lo)
    ensures ByScore([e] + hi + [a, b] + lo)
  {
    var tail := hi + [a, b] + lo;
    assert [e] + hi + [a, b] + lo == [e] + tail;
    forall i | 0 <= i < |tail|
      ensures tail[i].score <= e.score
    {
      assert tail[i] in multiset(tail);
      assert tail[i] in multiset(rest);
      var k :| 0 <= k < |rest| && rest[k] == tail[i];
      assert ([e] + rest)[0] == e && ([e] + rest)[k + 1] == rest[k];
    }
  }

  lemma ContestedDiffers(items: seq<Entry>, minMargin: real, l: Entry, r: Entry) returns (first: seq<Entry>, second: seq<Entry>)
    requires Contested(items, minMargin, l, r)
    ensures Order(items, first) && Order(items, second)
    ensures Run(items, minMargin, EMPTY, first) != Run(items, minMargin, EMPTY, second)
  {
    hide Clears, Step, Run, Sorted, Unaffected, Outcome, ByScore;
    SortedIsOrder(items);
    OrderFromItems(items, Sorted(items));
    var hi, lo := BringTogether(Sorted(items), l, r);
    forall i | 0 <= i < |hi|
      ensures !Clears(items, hi[i], {}, minMargin)
    {
      assert hi[i] in items;
    }
    first, second := hi + [l, r] + lo, hi + [r, l] + lo;
    assert first == hi + ([l, r] + lo) && second == hi + ([r, l] + lo);
    assert multiset([l, r]) == multiset([r, l]) == multiset{l, r};
    SkipPrefix(items, minMargin, hi, [l, r] + lo);
    SkipPrefix(items, minMargin, hi, [r, l] + lo);
    ContestedOutcomes(items, minMargin, l, r, lo);
    ContestedOutcomes(items, minMargin, r, l, lo);
    TiedMargins(items, minMargin, EMPTY, l, r);
  }

  lemma OutcomeOf(items: seq<Entry>, wins: seq<Entry>)
    requires |wins| <= 2 && (|wins| == 2 ==> wins[0].side != wins[1].side)
    ensures var t := Outcome(items, wins);
            && t.out.Keys == (set e | e in wins :: e.side)
            && forall i | 0 <= i < |wins| :: Winner(t, wins[i].side) == wins[i]
  {
    hide Margin;
    var t := Outcome(items, wins);
    assert forall i | 0 <= i < |wins| :: wins[i] in wins;
    if |wins| == 2 {
      assert t.out.Keys == {wins[0].side, wins[1].side};
    } else if |wins| == 1 {
      assert t.out.Keys == {wins[0].side};
    }
  }

  /** Two outcomes of the same choice are equal, or the two winners are contested. */
  lemma SameOrContested(items: seq<Entry>, minMargin: real, v: seq<Entry>, w: seq<Entry>)
    requires Wins(items, minMargin, items, v) && Wins(items, minMargin, items, w)
    requires SameChoice(Outcome(items, v), Outcome(items, w))
    ensures Outcome(items, v) == Outcome(items, w) || exists l, r :: Contested(items, minMargin, l, r)
  {
    hide Clears, Margin, Unaffected, NoneBetter, Outcome, Step;
    var s, t := Outcome(items, v), Outcome(items, w);
    OutcomeOf(items, v);
    OutcomeOf(items, w);
    forall i | 0 <= i < |v|
      ensures v[i] in w
    {
      assert v[i].side in s.out.Keys;
      assert Winner(s, v[i].side) == Winner(t, v[i].side);
    }
    forall i | 0 <= i < |w|
      ensures w[i] in v
    {
      assert w[i].side in t.out.Keys;
      assert Winner(s, w[i].side) == Winner(t, w[i].side);
    }
    if v != w {
      assert v == [v[0], v[1]] && w == [v[1], v[0]];
      TiedMargins(items, minMargin, EMPTY, v[0], v[1]);
      ContestedOutcomes(items, minMargin, v[0], v[1], []);
      ContestedOutcomes(items, minMargin, v[1], v[0], []);
      if s != t {
        NoneBetterTied(items, minMargin, v[0], v[1]);
        assert Contested(items, minMargin, v[0], v[1]) || Contested(items, minMargin, v[1], v[0]);
      }
    }
  }

  lemma NoneBetterTied(items: seq<Entry>, minMargin: real, a: Entry, b: Entry)
    requires a.score == b.score
    ensures NoneBetter(items, minMargin, items, a) == NoneBetter(items, minMargin, items, b)
  {
  }

  /**
   * With a positive margin the whole answer, recorded margins included, is the same for every order by descending score
   * exactly when no two entries of the table are contested.
   */
  lemma AnswerIsOrderFree(items: seq<Entry>, minMargin: real)
    requires minMargin > 0.0
    ensures (forall first, second | Order(items, first) && Order(items, second) ::
               Run(items, minMargin, EMPTY, first) == Run(items, minMargin, EMPTY, second))
            <==> !exists l, r :: Contested(items, minMargin, l, r)
  {
    hide Run, Contested, Order;
    if l, r :| Contested(items, minMargin, l, r) {
      var first, second := ContestedDiffers(items, minMargin, l, r);
    } else {
      forall first, second | Order(items, first) && Order(items, second)
        ensures Run(items, minMargin, EMPTY, first) == Run(items, minMargin, EMPTY, second)
      {
        UncontestedAgree(items, minMargin, first, second);
      }
    }
  }

  lemma UncontestedAgree(items: seq<Entry>, minMargin: real, first: seq<Entry>, second: seq<Entry>)
    requires minMargin > 0.0 && Order(items, first) && Order(items, second)
    requires forall l, r :: !Contested(items, minMargin, l, r)
    ensures Run(items, minMargin, EMPTY, first) == Run(items, minMargin, EMPTY, second)
  {
    hide Run, Contested, Sorted, Outcome, Clears, SameChoice;
    var v := WinsInOrder(items, minMargin, first);
    var w := WinsInOrder(items, minMargin, second);
    AssociationIsOrderFree(items, minMargin, first);
    AssociationIsOrderFree(items, minMargin, second);
    SameChoiceTransitive(Run(items, minMargin, EMPTY, first), Run(items, minMargin, EMPTY, Sorted(items)),
                         Run(items, minMargin, EMPTY, second));
    SameOrContested(items, minMargin, v, w);
  }

  lemma WinsInOrder(items: seq<Entry>, minMargin: real, order: seq<Entry>) returns (wins: seq<Entry>)
    requires Order(items, order)
    ensures Wins(items, minMargin, items, wins) && Complete(items, minMargin, items, wins)
    ensures Run(items, minMargin, EMPTY, order) == Outcome(items, wins)
  {
    hide Run, Outcome, Clears;
    OrderFromItems(items, order);
    wins := WinsOf(items, minMargin, order);
  }

  // --- the documented margin, on the table ------------------------------------------------------------------------------

  /** A candidate has one score for a side. */
  predicate OneScore(items: seq<Entry>) {
    forall a, b | a in items && b in items && a.candidate == b.candidate && a.side == b.side :: a == b
  }

  /** The best entry that clears everything, one that follows it, and what the first one's candidate scored on that side. */
  predicate Outshone(items: seq<Entry>, minMargin: real, l: Entry, r: Entry, x: Entry) {
    && l in items && r in items && x in items
    && Clears(items, l, {}, minMargin) && NoneBetter(items, minMargin, items, l) && Follows(items, minMargin, l, r)
    && x.side == r.side && x.candidate == l.candidate && r.score - x.score < minMargin
  }

  /** Two entries for one side that both clear the same are for one candidate. */
  lemma OneClears(items: seq<Entry>, minMargin: real, a: Entry, b: Entry, used: set<nat>)
    requires minMargin > 0.0 && a in items && b in items && a.side == b.side
    requires a.candidate !in used && b.candidate !in used && Clears(items, b, used, minMargin)
    ensures Clears(items, a, used, minMargin) || a.score > b.score - minMargin ==> a.candidate == b.candidate
  {
    if a.candidate != b.candidate {
      if b.score - a.score < minMargin {
        Blocks(items, b, a, used, minMargin);
      } else if a.score - b.score < minMargin {
        Blocks(items, a, b, used, minMargin);
      }
    }
  }

  /** What follows a win it is not worse than clears everything itself. */
  lemma FollowerClears(items: seq<Entry>, minMargin: real, l: Entry, r: Entry)
    requires l in items && Clears(items, l, {}, minMargin) && Follows(items, minMargin, l, r) && r.score >= l.score
    ensures Clears(items, r, {}, minMargin)
  {
    forall k | 0 <= k < |items| && Alternative(r, items[k], {})
      ensures r.score - items[k].score >= minMargin
    {
      if !Alternative(r, items[k], {l.candidate}) {
        assert Alternative(l, items[k], {});
      }
    }
  }

  /** An entry that is outshone was processed after the first win, which is the one it follows. */
  lemma OutshoneWins(items: seq<Entry>, minMargin: real, wins: seq<Entry>, l: Entry, r: Entry, x: Entry)
    requires minMargin > 0.0 && OneScore(items) && Outshone(items, minMargin, l, r, x)
    requires Wins(items, minMargin, items, wins) && Complete(items, minMargin, items, wins)
    ensures wins == [l, r]
  {
    hide Clears, Alternative;
    if r.score >= l.score {
      FollowerClears(items, minMargin, l, r);
      XBlocks(items, minMargin, r, x);
    }
    assert wins != [];
    var w := wins[0];
    assert w.score == l.score;
    FirstIsBest(items, minMargin, w, l, r);
    if |wins| == 2 {
      OneClears(items, minMargin, wins[1], r, {l.candidate});
    }
  }

  lemma XBlocks(items: seq<Entry>, minMargin: real, r: Entry, x: Entry)
    requires x in items && x.side == r.side && x.candidate != r.candidate && r.score - x.score < minMargin
    ensures !Clears(items, r, {}, minMargin)
  {
    Blocks(items, r, x, {}, minMargin);
  }

  lemma FirstIsBest(items: seq<Entry>, minMargin: real, w: Entry, l: Entry, r: Entry)
    requires minMargin > 0.0 && OneScore(items) && w in items && l in items && r in items && w.score == l.score > r.score
    requires Clears(items, w, {}, minMargin) && Clears(items, l, {}, minMargin) && Follows(items, minMargin, l, r)
    ensures w == l
  {
    hide Clears;
    if w.side == l.side {
      OneClears(items, minMargin, w, l, {});
    } else if w.candidate == l.candidate {
      Blocks(items, l, w, {}, minMargin);
    } else {
      OneClears(items, minMargin, w, r, {l.candidate});
    }
  }

  lemma WinnerAmong(items: seq<Entry>, wins: seq<Entry>, side: Side) returns (i: nat)
    requires |wins| <= 2 && (|wins| == 2 ==> wins[0].side != wins[1].side) && side in Outcome(items, wins).out
    ensures i < |wins| && wins[i].side == side && Winner(Outcome(items, wins), side) == wins[i]
  {
    OutcomeOf(items, wins);
    hide Outcome;
    assert side in Outcome(items, wins).out.Keys;
    var e :| e in wins && e.side == side;
    i :| 0 <= i < |wins| && wins[i] == e;
  }

  lemma FullMarginOfWins(items: seq<Entry>, minMargin: real, wins: seq<Entry>)
    requires Wins(items, minMargin, items, wins) && Complete(items, minMargin, items, wins)
    requires !BeatsOtherWinner(items, minMargin, Outcome(items, wins))
    ensures exists l, r, x :: Outshone(items, minMargin, l, r, x)
  {
    hide Outcome, Clears, NoneBetter;
    var s := Outcome(items, wins);
    var a, b, x :| a in s.out && b in s.out && a != b && x in items && x.side == a && x.candidate == s.out[b].candidate
                   && s.out[a].score - x.score < minMargin;
    var i := WinnerAmong(items, wins, a);
    var j := WinnerAmong(items, wins, b);
    assert wins[i].score - x.score < minMargin && x.side == wins[i].side && x.candidate == wins[j].candidate;
    if i == 0 {
      ClearsEntry(items, wins[0], x, minMargin);
    } else {
      assert Outshone(items, minMargin, wins[0], wins[1], x);
    }
  }

  /** With a positive margin the answer has the documented margin exactly when nothing in the table is outshone. */
  lemma FullMarginOnTable(items: seq<Entry>, minMargin: real, order: seq<Entry>)
    requires minMargin > 0.0 && OneScore(items) && Order(items, order)
    ensures FullMargin(items, minMargin, Run(items, minMargin, EMPTY, order))
            <==> !exists l, r, x :: Outshone(items, minMargin, l, r, x)
  {
    hide Order, FullMargin, Run, Outcome, Wins, Complete;
    FullMarginOfAnswer(items, minMargin, order);
    var wins := WinsInOrder(items, minMargin, order);
    if l, r, x :| Outshone(items, minMargin, l, r, x) {
      OutshoneWins(items, minMargin, wins, l, r, x);
      OutshoneBeaten(items, minMargin, l, r, x);
    } else if !BeatsOtherWinner(items, minMargin, Outcome(items, wins)) {
      FullMarginOfWins(items, minMargin, wins);
    }
  }

  lemma OutshoneBeaten(items: seq<Entry>, minMargin: real, l: Entry, r: Entry, x: Entry)
    requires Outshone(items, minMargin, l, r, x)
    ensures !BeatsOtherWinner(items, minMargin, Outcome(items, [l, r]))
  {
    OutcomeOf(items, [l, r]);
    hide Outcome, Clears, NoneBetter;
    var s := Outcome(items, [l, r]);
    assert Winner(s, [l, r][0].side) == l && Winner(s, [l, r][1].side) == r;
  }

  /** Without a positive margin it does depend: of two tied candidates for one side the first processed wins. */
  lemma ZeroMarginDependsOnOrder(minMargin: real)
    requires minMargin <= 0.0
    ensures var a, b := Entry(0, Left, 1.0), Entry(1, Left, 1.0);
            && Order([a, b], [a, b]) && Order([a, b], [b, a])
            && !SameChoice(Run([a, b], minMargin, EMPTY, [a, b]), Run([a, b], minMargin, EMPTY, [b, a]))
  {
    var a, b := Entry(0, Left, 1.0), Entry(1, Left, 1.0);
    FirstOfTwo([a, b], minMargin, a, b);
    FirstOfTwo([a, b], minMargin, b, a);
    assert multiset([a, b]) == multiset{a, b} == multiset([b, a]);
  }

  lemma FirstOfTwo(items: seq<Entry>, minMargin: real, x: Entry, y: Entry)
    requires minMargin <= 0.0
    requires items == [Entry(0, Left, 1.0), Entry(1, Left, 1.0)] && x in items && y in items && x != y
    ensures var t := Run(items, minMargin, EMPTY, [x, y]); Left in t.out && t.out[Left].candidate == x.candidate
  {
    var s1 := Step(items, minMargin, EMPTY, x);
    StepIs(items, minMargin, EMPTY, x);
    StepIs(items, minMargin, s1, y);
    hide Step;
    assert Accepts(items, minMargin, EMPTY, x);
    var s2 := Step(items, minMargin, s1, y);
    assert [x, y][1..] == [y] && [y][1..] == [];
    assert Run(items, minMargin, s2, []) == s2;
    assert Run(items, minMargin, s1, [y]) == s2;
  }

  /** All descending orders of this table choose alike. */
  ghost predicate ChoiceIsFree(items: seq<Entry>, minMargin: real) {
    forall first, second | Order(items, first) && Order(items, second) ::
      SameChoice(Run(items, minMargin, EMPTY, first), Run(items, minMargin, EMPTY, second))
  }

  /** So the choice is order-free on every table exactly for a positive margin. */
  lemma ChoiceIsFreeExactly(minMargin: real)
    ensures (forall items :: ChoiceIsFree(items, minMargin)) <==> minMargin > 0.0
  {
    hide Run, Order, SameChoice, Sorted;
    if minMargin > 0.0 {
      forall items, first, second | Order(items, first) && Order(items, second)
        ensures SameChoice(Run(items, minMargin, EMPTY, first), Run(items, minMargin, EMPTY, second))
      {
        AssociationIsOrderFree(items, minMargin, first);
        AssociationIsOrderFree(items, minMargin, second);
        SameChoiceTransitive(Run(items, minMargin, EMPTY, first), Run(items, minMargin, EMPTY, Sorted(items)),
                             Run(items, minMargin, EMPTY, second));
      }
    } else {
      ZeroMarginDependsOnOrder(minMargin);
      assert !ChoiceIsFree([Entry(0, Left, 1.0), Entry(1, Left, 1.0)], minMargin);
    }
  }

  /** And even with one, the recorded margin is not order-free: the second side's rival is gone once its candidate is used. */
  lemma MarginDependsOnOrder()
    ensures var a, b := Entry(0, Left, 1.0), Entry(1, Right, 1.0);
            var c, d := Entry(0, Right, 0.5), Entry(1, Left, 0.25);
            var items := [a, b, c, d];
            && Order(items, items) && Order(items, [b, a] + items[2..])
            && var s, t := Step(items, 0.25, Step(items, 0.25, EMPTY, a), b), Step(items, 0.25, Step(items, 0.25, EMPTY, b), a);
            && Right in s.out && s.out[Right].margin == Some(0.75)
            && Right in t.out && t.out[Right].margin == Some(0.5)
  {
    var a, b := Entry(0, Left, 1.0), Entry(1, Right, 1.0);
    var c, d := Entry(0, Right, 0.5), Entry(1, Left, 0.25);
    var items := [a, b, c, d];
    FourMargins(items);
    hide *;
    TwoSteps(items, a, b);
    TwoSteps(items, b, a);
    FourByScore(items);
    FrontSwapped(items);
  }

  lemma FourByScore(order: seq<Entry>)
    requires |order| == 4
    requires order[0].score >= order[1].score >= order[2].score >= order[3].score
    ensures ByScore(order) && Order(order, order)
  {
  }

  /** Exchanging two tied entries at the front gives another possible order. */
  lemma FrontSwapped(items: seq<Entry>)
    requires |items| >= 2 && ByScore(items) && items[0].score == items[1].score
    ensures Order(items, [items[1], items[0]] + items[2..])
  {
    var a, b, rest := items[0], items[1], items[2..];
    assert items == [a, b] + rest;
    assert multiset([b, a] + rest) == multiset{b, a} + multiset(rest);
    assert multiset([a, b] + rest) == multiset{a, b} + multiset(rest);
  }

  /** The first entry takes its side with its margin; then the second takes its own with what is left to beat. */
  lemma TwoSteps(items: seq<Entry>, first: Entry, second: Entry)
    requires first.candidate != second.candidate && first.side != second.side
    requires Margin(items, first, {}).Some? && Margin(items, first, {}).value >= 0.25
    requires Margin(items, second, {first.candidate}).Some? && Margin(items, second, {first.candidate}).value >= 0.25
    ensures var s := Step(items, 0.25, Step(items, 0.25, EMPTY, first), second);
            && first.side in s.out && s.out[first.side].margin == Margin(items, first, {})
            && second.side in s.out && s.out[second.side].margin == Margin(items, second, {first.candidate})
  {
    hide Margin;
    var s := Step(items, 0.25, EMPTY, first);
    assert s.used == {first.candidate} && second.side !in s.out;
  }

  lemma FourMargins(items: seq<Entry>)
    requires items == [Entry(0, Left, 1.0), Entry(1, Right, 1.0), Entry(0, Right, 0.5), Entry(1, Left, 0.25)]
    ensures Margin(items, items[0], {}) == Some(0.5) && Margin(items, items[1], {}) == Some(0.5)
    ensures Margin(items, items[1], {0}) == Some(0.75) && Margin(items, items[0], {1}) == Some(0.5)
  {
    FourAlternatives(items, items[0], {});
    FourAlternatives(items, items[1], {});
    FourAlternatives(items, items[1], {0});
    FourAlternatives(items, items[0], {1});
    hide BestAlternative;
  }

  lemma FourAlternatives(items: seq<Entry>, e: Entry, used: set<nat>)
    requires |items| == 4
    ensures BestAlternative(items, e, used, 4) ==
              Better(items, e, used, 3, Better(items, e, used, 2, Better(items, e, used, 1, Better(items, e, used, 0, None))))
  {
    assert BestAlternative(items, e, used, 0) == None;
    assert BestAlternative(items, e, used, 1) == Better(items, e, used, 0, None);
    assert BestAlternative(items, e, used, 2) == Better(items, e, used, 1, BestAlternative(items, e, used, 1));
    assert BestAlternative(items, e, used, 3) == Better(items, e, used, 2, BestAlternative(items, e, used, 2));
    assert BestAlternative(items, e, used, 4) == Better(items, e, used, 3, BestAlternative(items, e, used, 3));
  }

  function Better(items: seq<Entry>, e: Entry, used: set<nat>, k: nat, best: Option<real>): Option<real>
    requires k < |items|
  {
    if !Alternative(e, items[k], used) then best
    else if best.None? || items[k].score > best.value then Some(items[k].score)
    else best
  }
}
