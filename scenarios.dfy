/**
 * Calls of the minimiser on the automata of the repository's own test suite
 * (solution/test.py).  Each test method calls `Minimize` and states, as its
 * postcondition, the partition the test expects; that result is proved from
 * the minimiser's contract alone.  `IncompleteRun` and `GapPass` instead
 * call the steps of the minimiser (`IndexBlocks`, `ProcessSplitter`) on an
 * incomplete automaton, where the result is not the partition into classes.
 */
module Scenarios {
  import opened Collector
  import opened Partitions
  import opened Automaton
  import opened Refinement
  import opened Hopcroft

  /**
   * A partition of two distinct states that keeps an accepting state `y`
   * apart from a rejecting state `x` is the two singletons.
   */
  lemma Separated<S>(P: set<set<S>>, x: S, y: S, F: set<S>)
    requires x != y && y in F && x !in F
    requires IsPartition(P, {x, y}) && Respects(P, F)
    ensures P == {{x}, {y}}
  {
    forall B | B in P
      ensures B == {x} || B == {y}
    {
      assert B != {} && B <= {x, y};
      if B <= F {
        assert x !in B;
        assert B == {y};
      } else {
        assert y !in B;
        assert B == {x};
      }
    }
    assert Covered(P, x) && Covered(P, y);
    var Bx :| Bx in P && x in Bx;
    var By :| By in P && y in By;
    assert Bx == {x} && By == {y};
  }

  /**
   * In a complete DFA whose accepting/rejecting split `E` is stable, each
   * block of `E` is the Myhill–Nerode class of each of its states.
   */
  lemma SplitIsClass<S(!new), A(!new)>(
    acc: set<S>, sigma: set<A>, inv: map<(A, S), set<S>>, F: set<S>, R: set<S>, B: set<S>, q: S)
    requires IsCompleteDfa(acc, sigma, inv)
    requires F == Universe(acc, inv) * acc && R == Universe(acc, inv) - acc
    requires IsPartition({F, R}, Universe(acc, inv)) && IsStable({F, R}, inv, sigma)
    requires (B == F || B == R) && q in B
    ensures B == EquivalenceClass(acc, sigma, inv, q)
  {
    assert Respects({F, R}, acc);
    StableSound(acc, sigma, inv, {F, R});
    forall r | r in EquivalenceClass(acc, sigma, inv, q)
      ensures r in B
    {
      EquivalentAccepting(acc, sigma, inv, q, r);
    }
  }

  /**
   * When the accepting/rejecting split {F, R} of a complete DFA is already
   * stable, it is the Myhill–Nerode partition, so the minimiser returns
   * exactly it.
   */
  lemma TwoClasses<S(!new), A(!new)>(
    acc: set<S>, sigma: set<A>, inv: map<(A, S), set<S>>, P: set<set<S>>, F: set<S>, R: set<S>)
    requires IsCompleteDfa(acc, sigma, inv)
    requires IsPartition(P, Universe(acc, inv)) && MyhillNerodeClasses(acc, sigma, inv, P)
    requires F == Universe(acc, inv) * acc && R == Universe(acc, inv) - acc
    requires F != {} && R != {} && IsStable({F, R}, inv, sigma)
    ensures P == {F, R}
  {
    var Q := Universe(acc, inv);
    var E := {F, R};
    assert Q - F == R;
    TwoBlockPartition(Q, F);
    forall B, q | B in E && q in B
      ensures B == EquivalenceClass(acc, sigma, inv, q)
    {
      SplitIsClass(acc, sigma, inv, F, R, B, q);
    }
    MyhillNerodeUnique(acc, sigma, inv, P, E);
  }

  /** test.py:39-40: no states at all gives the empty partition. */
  method Empty() returns (P: set<set<int>>)
    ensures P == {}
  {
    var inv: map<(char, int), set<int>> := map[];
    P := Minimize({}, {}, inv);
    UniverseEmpty({}, inv);
  }

  /** test.py:42-44: one accepting state looping to itself. */
  method SingleAccept() returns (P: set<set<int>>)
    ensures P == {{0}}
  {
    var inv := map[('a', 0) := {0}];
    assert Universe({0}, inv) == {0};
    P := Minimize({0}, {'a'}, inv);
  }

  /** test.py:46-48: one rejecting state looping to itself. */
  method SingleReject() returns (P: set<set<int>>)
    ensures P == {{0}}
  {
    var inv := map[('a', 0) := {0}];
    assert ('a', 0) in inv;
    assert Universe({}, inv) == {0};
    P := Minimize({}, {'a'}, inv);
  }

  /** test.py:50-52: an accepting state over an empty alphabet. */
  method NoAlphabet() returns (P: set<set<int>>)
    ensures P == {{0}}
  {
    var inv: map<(char, int), set<int>> := map[];
    assert Universe({0}, inv) == {0};
    P := Minimize({0}, {}, inv);
  }

  /** test.py:75-78: the two-state automaton for words ending in b is already minimal. */
  method EndsWithB() returns (P: set<set<int>>)
    ensures P == {{0}, {1}}
  {
    var inv := map[('a', 0) := {0, 1}, ('b', 1) := {0, 1}];
    assert ('a', 0) in inv;
    assert Universe({1}, inv) == {0, 1};
    P := Minimize({1}, {'a', 'b'}, inv);
    Separated(P, 0, 1, {1});
  }

  /** test.py:111-114: a three-cycle of accepting states collapses to one block. */
  method AllAcceptCycle() returns (P: set<set<int>>)
    ensures P == {{0, 1, 2}}
  {
    var inv := map[('a', 1) := {0}, ('a', 2) := {1}, ('a', 0) := {2}];
    assert ('a', 1) in inv && ('a', 2) in inv && ('a', 0) in inv;
    assert Universe({0, 1, 2}, inv) == {0, 1, 2};
    P := Minimize({0, 1, 2}, {'a'}, inv);
  }

  /** test.py:134-137: three accepting self-loops collapse to one block. */
  method SelfLoopsAllAccept() returns (P: set<set<int>>)
    ensures P == {{0, 1, 2}}
  {
    var inv := map[('a', 0) := {0}, ('a', 1) := {1}, ('a', 2) := {2}];
    assert ('a', 1) in inv && ('a', 2) in inv && ('a', 0) in inv;
    assert Universe({0, 1, 2}, inv) == {0, 1, 2};
    P := Minimize({0, 1, 2}, {'a'}, inv);
  }

  /** test.py:175-178: an accepting and a rejecting self-loop stay apart. */
  method SelfLoopAcceptVsReject() returns (P: set<set<int>>)
    ensures P == {{1}, {0}}
  {
    var inv := map[('a', 0) := {0}, ('a', 1) := {1}];
    assert ('a', 0) in inv && ('a', 1) in inv;
    assert Universe({0}, inv) == {0, 1};
    P := Minimize({0}, {'a'}, inv);
    Separated(P, 1, 0, {0});
  }

  /** test.py:185-188: state names need not be numbers. */
  method StringStates() returns (P: set<set<string>>)
    ensures P == {{"start"}, {"accept"}}
  {
    var inv := map[('x', "accept") := {"start"}, ('x', "start") := {"start"}];
    assert ('x', "accept") in inv && ('x', "start") in inv;
    assert Universe({"accept"}, inv) == {"start", "accept"};
    P := Minimize({"accept"}, {'x'}, inv);
    Separated(P, "start", "accept", {"accept"});
  }

  /** test.py:285-289: an accepting state that no transition mentions is still a state. */
  method AcceptingStateNotInTransitions() returns (P: set<set<int>>)
    ensures P == {{0, 1}}
  {
    var inv := map[('a', 1) := {1}];
    assert ('a', 1) in inv;
    assert Universe({0, 1}, inv) == {0, 1};
    P := Minimize({0, 1}, {'a'}, inv);
  }

  /** The states 0 .. n - 1 of a ring. */
  function RingStates(n: nat): (r: set<int>)
    ensures forall x :: x in r <==> 0 <= x < n
  {
    if n == 0 then {} else RingStates(n - 1) + {n - 1}
  }

  /**
   * The ring of test.py:231-242 in inverse form: state i moves to
   * (i + 1) % n on 'a', so the one predecessor of t is t - 1, or n - 1 for
   * t = 0.
   */
  function Ring(n: nat): (inv: map<(char, int), set<int>>)
  {
    map t | 0 <= t < n :: ('a', t) := {if t == 0 then n - 1 else t - 1}
  }

  /** The inverse ring has the entries of the test's dictionary: i is the one 'a'-predecessor of (i + 1) % n. */
  lemma RingPreds(n: nat, i: int)
    requires 0 <= i < n
    ensures Preds(Ring(n), 'a', (i + 1) % n) == {i}
  {
    RingNext(n, i);
  }

  /** The successor (i + 1) % n of a ring state, without the remainder. */
  lemma RingNext(n: nat, i: int)
    requires 0 <= i < n
    ensures (i + 1) % n == if i + 1 < n then i + 1 else 0
  {
    if i + 1 == n {
      assert (i + 1) % n == n % n == 0;
    }
  }

  /** The ring mentions no state outside 0 .. n - 1. */
  lemma RingUniverse(n: nat)
    ensures Universe(RingStates(n), Ring(n)) == RingStates(n)
  {
    forall x | x in Universe(RingStates(n), Ring(n))
      ensures x in RingStates(n)
    {
      UniverseMembers(RingStates(n), Ring(n), x);
    }
  }

  /** test.py:238-242: a ring of n accepting states is one block (the test takes n = 1000). */
  method RingAllAccept(n: nat) returns (P: set<set<int>>)
    ensures n > 0 ==> P == {RingStates(n)} && |P| == 1
    ensures n == 0 ==> P == {}
  {
    RingUniverse(n);
    assert n > 0 ==> 0 in RingStates(n);
    P := Minimize(RingStates(n), {'a'}, Ring(n));
  }

  /** The automaton of test.py:271-283: two copies of a two-state cycle, 0 -> 1 -> 0 and 3 -> 2 -> 3. */
  const CyclesInv: map<(char, int), set<int>> := map[('a', 1) := {0}, ('a', 0) := {1}, ('a', 3) := {2}, ('a', 2) := {3}]

  lemma CyclesPreds(t: int)
    ensures Preds(CyclesInv, 'a', t) == if t == 0 then {1} else if t == 1 then {0} else if t == 2 then {3} else if t == 3 then {2} else {}
  {
  }

  lemma CyclesDfa()
    ensures Universe({1, 2}, CyclesInv) == {0, 1, 2, 3}
    ensures Universe({1, 2}, CyclesInv) * {1, 2} == {1, 2} && Universe({1, 2}, CyclesInv) - {1, 2} == {0, 3}
    ensures IsCompleteDfa({1, 2}, {'a'}, CyclesInv)
  {
    var inv := CyclesInv;
    assert ('a', 1) in inv && ('a', 0) in inv && ('a', 3) in inv && ('a', 2) in inv;
    assert Universe({1, 2}, inv) == {0, 1, 2, 3};
    forall a, q, t1, t2 | a in {'a'} && q in Preds(inv, a, t1) && q in Preds(inv, a, t2)
      ensures t1 == t2
    {
      CyclesPreds(t1);
      CyclesPreds(t2);
    }
    forall a, q | a in {'a'} && q in Universe({1, 2}, inv)
      ensures HasSucc(inv, a, q)
    {
      var t := if q == 0 then 1 else if q == 1 then 0 else if q == 2 then 3 else 2;
      CyclesPreds(t);
      assert q in Preds(inv, a, t);
    }
  }

  lemma CyclesPreAccepting()
    ensures Pre(CyclesInv, 'a', {1, 2}) == {0, 3}
  {
    var inv := CyclesInv;
    forall q | q in Pre(inv, 'a', {1, 2})
      ensures q in {0, 3}
    {
      var t := PreElim(inv, 'a', {1, 2}, q);
      CyclesPreds(t);
    }
    PreIntro(inv, 'a', {1, 2}, 1, 0);
    PreIntro(inv, 'a', {1, 2}, 2, 3);
  }

  lemma CyclesPreRejecting()
    ensures Pre(CyclesInv, 'a', {0, 3}) == {1, 2}
  {
    var inv := CyclesInv;
    forall q | q in Pre(inv, 'a', {0, 3})
      ensures q in {1, 2}
    {
      var t := PreElim(inv, 'a', {0, 3}, q);
      CyclesPreds(t);
    }
    PreIntro(inv, 'a', {0, 3}, 0, 1);
    PreIntro(inv, 'a', {0, 3}, 3, 2);
  }

  lemma RespectsPair<S>(B1: set<S>, B2: set<S>, X: set<S>)
    requires B1 <= X || B1 !! X
    requires B2 <= X || B2 !! X
    ensures Respects({B1, B2}, X)
  {
  }

  lemma CyclesStable()
    ensures IsStable({{1, 2}, {0, 3}}, CyclesInv, {'a'})
  {
    var E: set<set<int>> := {{1, 2}, {0, 3}};
    RespectsPair({1, 2}, {0, 3}, {0, 3});
    RespectsPair({1, 2}, {0, 3}, {1, 2});
    forall C | C in E
      ensures StableAll(E, CyclesInv, {'a'}, C)
    {
      forall a | a in {'a'}
        ensures StableOn(E, CyclesInv, a, C)
      {
        if C == {1, 2} {
          CyclesPreAccepting();
        } else {
          CyclesPreRejecting();
        }
      }
    }
  }

  lemma CyclesResult(P: set<set<int>>)
    requires IsPartition(P, Universe({1, 2}, CyclesInv))
    requires IsCompleteDfa({1, 2}, {'a'}, CyclesInv) ==> MyhillNerodeClasses({1, 2}, {'a'}, CyclesInv, P)
    ensures P == {{1, 2}, {0, 3}}
  {
    CyclesDfa();
    CyclesStable();
    TwoClasses({1, 2}, {'a'}, CyclesInv, P, {1, 2}, {0, 3});
  }

  /**
   * test.py:271-283: the two cycles are structurally identical, so the
   * accepting states 1 and 2 merge, and so do the rejecting states 0 and 3.
   */
  method WorklistHeuristic() returns (P: set<set<int>>)
    ensures P == {{1, 2}, {0, 3}}
  {
    P := Minimize({1, 2}, {'a'}, CyclesInv);
    CyclesResult(P);
  }

  /** The automaton of test.py:116-121: states 0, 1 and 2 all move to the accepting state 0. */
  const FunnelInv: map<(char, int), set<int>> := map[('a', 0) := {0, 1, 2}]

  lemma FunnelPreds(t: int)
    ensures Preds(FunnelInv, 'a', t) == if t == 0 then {0, 1, 2} else {}
  {
  }

  lemma FunnelDfa()
    ensures Universe({0}, FunnelInv) == {0, 1, 2}
    ensures Universe({0}, FunnelInv) * {0} == {0} && Universe({0}, FunnelInv) - {0} == {1, 2}
    ensures IsCompleteDfa({0}, {'a'}, FunnelInv)
  {
    var inv := FunnelInv;
    assert ('a', 0) in inv;
    assert Universe({0}, inv) == {0, 1, 2};
    forall a, q, t1, t2 | a in {'a'} && q in Preds(inv, a, t1) && q in Preds(inv, a, t2)
      ensures t1 == t2
    {
      FunnelPreds(t1);
      FunnelPreds(t2);
    }
    forall a, q | a in {'a'} && q in Universe({0}, inv)
      ensures HasSucc(inv, a, q)
    {
      FunnelPreds(0);
      assert q in Preds(inv, a, 0);
    }
  }

  lemma FunnelStable()
    ensures IsStable({{0}, {1, 2}}, FunnelInv, {'a'})
  {
    var inv := FunnelInv;
    var E: set<set<int>> := {{0}, {1, 2}};
    assert Pre(inv, 'a', {0}) == {0, 1, 2} by {
      forall q | q in Pre(inv, 'a', {0})
        ensures q in {0, 1, 2}
      {
        var t := PreElim(inv, 'a', {0}, q);
      }
      PreIntro(inv, 'a', {0}, 0, 0);
      PreIntro(inv, 'a', {0}, 0, 1);
      PreIntro(inv, 'a', {0}, 0, 2);
    }
    assert Pre(inv, 'a', {1, 2}) == {} by {
      forall q | q in Pre(inv, 'a', {1, 2})
        ensures false
      {
        var t := PreElim(inv, 'a', {1, 2}, q);
        FunnelPreds(t);
      }
    }
    RespectsPair({0}, {1, 2}, {0, 1, 2});
    RespectsPair({0}, {1, 2}, {});
    forall C | C in E
      ensures StableAll(E, inv, {'a'}, C)
    {
      forall a | a in {'a'}
        ensures StableOn(E, inv, a, C)
      {
      }
    }
  }

  lemma FunnelResult(P: set<set<int>>)
    requires IsPartition(P, Universe({0}, FunnelInv))
    requires IsCompleteDfa({0}, {'a'}, FunnelInv) ==> MyhillNerodeClasses({0}, {'a'}, FunnelInv, P)
    ensures P == {{0}, {1, 2}}
  {
    FunnelDfa();
    FunnelStable();
    TwoClasses({0}, {'a'}, FunnelInv, P, {0}, {1, 2});
  }

  /** test.py:116-121: the two rejecting states that both move to 0 merge; 0 stays alone. */
  method ParallelRejectStates() returns (P: set<set<int>>)
    ensures P == {{0}, {1, 2}}
  {
    P := Minimize({0}, {'a'}, FunnelInv);
    FunnelResult(P);
  }

  /**
   * An incomplete automaton: 0 and 1 accept, 2 rejects, 0 moves to itself on
   * `a`, and the entry for `b` into 2 is empty.  State 1 has no edges.
   */
  const GapInv: map<(char, int), set<int>> := map[('a', 0) := {0}, ('b', 2) := {}]

  lemma GapPreds(a: char, t: int)
    ensures Preds(GapInv, a, t) == if a == 'a' && t == 0 then {0} else {}
  {
  }

  /** The only `a`-edge of the incomplete automaton runs from 0 to 0. */
  lemma GapAccepts()
    ensures Accepts({0, 1}, GapInv, 0, ['a'])
    ensures !HasSucc(GapInv, 'a', 1) && !Accepts({0, 1}, GapInv, 1, ['a'])
  {
    GapPreds('a', 0);
    assert HasSucc(GapInv, 'a', 0);
    var t := Succ(GapInv, 'a', 0);
    GapPreds('a', t);
    assert t == 0;
    assert ['a'][1..] == [];
    forall u
      ensures 1 !in Preds(GapInv, 'a', u)
    {
      GapPreds('a', u);
    }
  }

  /**
   * Why the class claim needs a complete DFA.  On the incomplete automaton
   * above, F = {0, 1} is larger than Q - F = {2}, so the worklist starts as
   * {{2}}; the splitter {2} has no predecessors on either symbol, so no block
   * is split and the result is the initial {{0, 1}, {2}}.  Yet the word "a"
   * separates 0 from 1, so that result is not the partition into
   * Myhill–Nerode classes.
   */
  lemma IncompleteCounterexample()
    ensures Universe({0, 1}, GapInv) == {0, 1, 2}
    ensures !IsCompleteDfa({0, 1}, {'a', 'b'}, GapInv)
    ensures Pre(GapInv, 'a', {2}) == {} && Pre(GapInv, 'b', {2}) == {}
    ensures IsPartition({{0, 1}, {2}}, Universe({0, 1}, GapInv)) && Respects({{0, 1}, {2}}, {0, 1})
    ensures !Equivalent({0, 1}, {'a', 'b'}, GapInv, 0, 1)
    ensures !MyhillNerodeClasses({0, 1}, {'a', 'b'}, GapInv, {{0, 1}, {2}})
  {
    GapUniverse();
    GapAccepts();
    GapIdle('a');
    GapIdle('b');
    GapStart();
    GapNotClasses();
  }

  lemma GapUniverse()
    ensures Universe({0, 1}, GapInv) == {0, 1, 2}
  {
    assert ('a', 0) in GapInv && ('b', 2) in GapInv;
  }

  /** The splitter {2} has no predecessors on any symbol. */
  lemma GapIdle(a: char)
    ensures Pre(GapInv, a, {2}) == {}
  {
    forall q | q in Pre(GapInv, a, {2})
      ensures false
    {
      var t := PreElim(GapInv, a, {2}, q);
      GapPreds(a, t);
    }
  }

  /** The initial two blocks partition the universe and separate accepting states. */
  lemma GapStart()
    ensures IsPartition({{0, 1}, {2}}, {0, 1, 2}) && Respects({{0, 1}, {2}}, {0, 1})
  {
    var E: set<set<int>> := {{0, 1}, {2}};
    forall x | x in {0, 1, 2}
      ensures Covered(E, x)
    {
      if x == 2 {
        assert 2 in {2};
      } else {
        assert x in {0, 1};
      }
    }
  }

  /** State 1 has no `a`-edge, and the word "a" separates 0 from 1. */
  lemma GapNotClasses()
    ensures !IsCompleteDfa({0, 1}, {'a', 'b'}, GapInv)
    ensures !Equivalent({0, 1}, {'a', 'b'}, GapInv, 0, 1)
    ensures !MyhillNerodeClasses({0, 1}, {'a', 'b'}, GapInv, {{0, 1}, {2}})
  {
    var inv, acc, sigma := GapInv, {0, 1}, {'a', 'b'};
    GapUniverse();
    GapAccepts();
    assert IsWord(sigma, ['a']);
    assert !Complete(acc, sigma, inv) by {
      assert 'a' in sigma && 1 in Universe(acc, inv);
    }
    assert 1 !in EquivalenceClass(acc, sigma, inv, 0);
    assert 0 in {0, 1};
  }

  /** The universe, the two initial blocks and their sizes for the incomplete automaton. */
  lemma GapSeed()
    ensures Universe({0, 1}, GapInv) == {0, 1, 2}
    ensures {0, 1} * {0, 1, 2} == {0, 1} && {0, 1, 2} - {0, 1} == {2}
    ensures |{0, 1}| == 2 && |{2}| == 1
    ensures IsPartition({{0, 1}, {2}}, {0, 1, 2})
  {
    GapUniverse();
    GapStart();
  }

  /** The seeded state of the incomplete automaton, with the splitter {2} popped, meets the loop invariant. */
  lemma GapPopped(blockOf0: map<int, set<int>>)
    requires Indexed(blockOf0, {{0, 1}, {2}}, {0, 1, 2})
    ensures Inv({0, 1}, {'a', 'b'}, GapInv, {0, 1, 2}, {{0, 1}, {2}}, blockOf0, {}, {2}, {})
  {
    GapUniverse();
    assert {0, 1} * {0, 1, 2} == {0, 1} && {0, 1, 2} - {0, 1} == {2};
    InitInv({0, 1}, {'a', 'b'}, GapInv, {0, 1, 2}, blockOf0, {0, 1}, {{2}});
    PopInv({0, 1}, {'a', 'b'}, GapInv, {0, 1, 2}, {{0, 1}, {2}}, blockOf0, {{2}}, {2});
    assert {{2}} - {{2}} == {};
  }

  /** The pass over the alphabet with splitter {2} keeps {{0, 1}, {2}}. */
  lemma GapKept(blockOf0: map<int, set<int>>, blockOf: map<int, set<int>>, P: set<set<int>>)
    requires Indexed(blockOf0, {{0, 1}, {2}}, {0, 1, 2}) && Indexed(blockOf, P, {0, 1, 2})
    requires Refines(P, {{0, 1}, {2}}) && KeptTogether(blockOf0, blockOf, GapInv, {'a', 'b'}, {2})
    ensures P == {{0, 1}, {2}}
  {
    GapIdle('a');
    GapIdle('b');
    assert forall a :: a in {'a', 'b'} ==> StableOn({{0, 1}, {2}}, GapInv, a, {2});
    StableSplitterKeeps(blockOf0, {{0, 1}, {2}}, blockOf, P, {0, 1, 2}, GapInv, {'a', 'b'}, {2});
  }

  /**
   * The steps of lines 24-87 of solution/main.py on the incomplete automaton:
   * the seed is {2}, popping it and running the pass over the alphabet
   * leaves {{0, 1}, {2}} and an empty worklist, so the loop stops there and
   * that partition is what line 89 returns.
   */
  method IncompleteRun() returns (P: set<set<int>>, W: set<set<int>>)
    ensures P == {{0, 1}, {2}} && W == {}
  {
    var acc: set<int>, sigma: set<char>, inv := {0, 1}, {'a', 'b'}, GapInv;
    var Q := GetAllStates(acc, inv);
    GapSeed();
    var F := acc * Q;
    var nonF := Q - F;
    var P0: set<set<int>> := {F, nonF};
    var blockOf0 := IndexBlocks(P0, Q);
    var W0: set<set<int>> := {if |F| <= |nonF| then F else nonF};
    var splitter :| splitter in W0;
    assert splitter == {2} && W0 - {splitter} == {};
    P, W := GapPass(blockOf0);
  }

  /** Lines 50-87 of solution/main.py on the incomplete automaton once {2} is popped: nothing is split and nothing is queued. */
  method GapPass(blockOf0: map<int, set<int>>) returns (P: set<set<int>>, W: set<set<int>>)
    requires Indexed(blockOf0, {{0, 1}, {2}}, {0, 1, 2})
    ensures P == {{0, 1}, {2}} && W == {}
  {
    GapPopped(blockOf0);
    var blockOf;
    P, blockOf, W := ProcessSplitter({0, 1}, {'a', 'b'}, GapInv, {0, 1, 2}, {{0, 1}, {2}}, blockOf0, {}, {2});
    GapKept(blockOf0, blockOf, P);
  }
}
