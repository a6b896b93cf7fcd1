/**
 * What the inverse transition relation means as an automaton: predecessor
 * sets of whole blocks, the successor function of a complete deterministic
 * automaton, the language accepted from a state, Myhill–Nerode equivalence,
 * and stability of a partition with respect to a splitter.
 */
module Automaton {
  import opened Collector
  import opened Partitions

  /** The states that move into some state of `X` on symbol `a`. */
  ghost function Pre<S(!new), A(!new)>(inv: map<(A, S), set<S>>, a: A, X: set<S>): set<S>
  {
    set t, q | t in X && (a, t) in inv && q in inv[(a, t)] :: q
  }

  lemma PreIntro<S(!new), A(!new)>(inv: map<(A, S), set<S>>, a: A, X: set<S>, t: S, q: S)
    requires t in X && q in Preds(inv, a, t)
    ensures q in Pre(inv, a, X)
  {
  }

  /** A predecessor of a set is a predecessor of one of its states. */
  lemma PreElim<S(!new), A(!new)>(inv: map<(A, S), set<S>>, a: A, X: set<S>, q: S) returns (t: S)
    requires q in Pre(inv, a, X)
    ensures t in X && q in Preds(inv, a, t)
  {
    t :| t in X && (a, t) in inv && q in inv[(a, t)];
  }

  /** `q` has an `a`-edge. */
  ghost predicate HasSucc<S(!new), A(!new)>(inv: map<(A, S), set<S>>, a: A, q: S)
  {
    exists t :: q in Preds(inv, a, t)
  }

  /** No state has two `a`-edges, for any declared symbol `a`. */
  ghost predicate Deterministic<S(!new), A(!new)>(sigma: set<A>, inv: map<(A, S), set<S>>)
  {
    forall a, q, t1, t2 :: a in sigma && q in Preds(inv, a, t1) && q in Preds(inv, a, t2) ==> t1 == t2
  }

  /** Every state of the universe has an edge on every declared symbol. */
  ghost predicate Complete<S(!new), A(!new)>(acc: set<S>, sigma: set<A>, inv: map<(A, S), set<S>>)
  {
    forall a, q :: a in sigma && q in Universe(acc, inv) ==> HasSucc(inv, a, q)
  }

  /**
   * The relation is the inverse of a total transition function on the
   * universe: the inputs describe a complete DFA.
   */
  ghost predicate IsCompleteDfa<S(!new), A(!new)>(acc: set<S>, sigma: set<A>, inv: map<(A, S), set<S>>)
  {
    Deterministic(sigma, inv) && Complete(acc, sigma, inv)
  }

  /** The state `q` moves to on `a` (the one state whose predecessors on `a` include `q`). */
  ghost function Succ<S(!new), A(!new)>(inv: map<(A, S), set<S>>, a: A, q: S): S
    requires HasSucc(inv, a, q)
  {
    var t :| q in Preds(inv, a, t); t
  }

  /** The word `w` leads from `q` to an accepting state. */
  ghost predicate Accepts<S(!new), A(!new)>(acc: set<S>, inv: map<(A, S), set<S>>, q: S, w: seq<A>)
    decreases |w|
  {
    if |w| == 0 then q in acc
    else HasSucc(inv, w[0], q) && Accepts(acc, inv, Succ(inv, w[0], q), w[1..])
  }

  ghost predicate IsWord<A>(sigma: set<A>, w: seq<A>)
  {
    forall i :: 0 <= i < |w| ==> w[i] in sigma
  }

  /** Myhill–Nerode equivalence: no word over the alphabet tells `q` and `r` apart. */
  ghost predicate Equivalent<S(!new), A(!new)>(acc: set<S>, sigma: set<A>, inv: map<(A, S), set<S>>, q: S, r: S)
  {
    forall w :: IsWord(sigma, w) ==> (Accepts(acc, inv, q, w) <==> Accepts(acc, inv, r, w))
  }

  /** Every block of `P` lies wholly inside or wholly outside the `a`-predecessors of `X`. */
  ghost predicate StableOn<S(!new), A(!new)>(P: set<set<S>>, inv: map<(A, S), set<S>>, a: A, X: set<S>)
  {
    Respects(P, Pre(inv, a, X))
  }

  /** `P` is stable with respect to `X` on every declared symbol. */
  ghost predicate StableAll<S(!new), A(!new)>(P: set<set<S>>, inv: map<(A, S), set<S>>, sigma: set<A>, X: set<S>)
  {
    forall a :: a in sigma ==> StableOn(P, inv, a, X)
  }

  /**
   * For every block B, symbol a and block C, either all states of B have
   * an a-edge into C or none does.
   */
  ghost predicate IsStable<S(!new), A(!new)>(P: set<set<S>>, inv: map<(A, S), set<S>>, sigma: set<A>)
  {
    forall C :: C in P ==> StableAll(P, inv, sigma, C)
  }

  /** The Myhill–Nerode class of `q`: the states of the universe equivalent to it. */
  ghost function EquivalenceClass<S(!new), A(!new)>(acc: set<S>, sigma: set<A>, inv: map<(A, S), set<S>>, q: S): set<S>
  {
    set r | r in Universe(acc, inv) && Equivalent(acc, sigma, inv, q, r)
  }

  /** Each block of `P` is the Myhill–Nerode class of each of its states. */
  ghost predicate MyhillNerodeClasses<S(!new), A(!new)>(acc: set<S>, sigma: set<A>, inv: map<(A, S), set<S>>, P: set<set<S>>)
  {
    forall B, q :: B in P && q in B ==> B == EquivalenceClass(acc, sigma, inv, q)
  }

  /** In a deterministic automaton the successor is the one state whose predecessors hold `q`. */
  lemma SuccOf<S(!new), A(!new)>(sigma: set<A>, inv: map<(A, S), set<S>>, a: A, q: S, t: S)
    requires Deterministic(sigma, inv) && a in sigma
    requires q in Preds(inv, a, t)
    ensures HasSucc(inv, a, q) && Succ(inv, a, q) == t
  {
  }

  /** The successor of a state of the universe is in the universe. */
  lemma SuccInUniverse<S(!new), A(!new)>(acc: set<S>, inv: map<(A, S), set<S>>, a: A, q: S)
    requires HasSucc(inv, a, q)
    ensures Succ(inv, a, q) in Universe(acc, inv)
  {
    PredsInUniverse(acc, inv, a, Succ(inv, a, q));
  }

  /** With at most one `a`-edge per state, `q` precedes `Y` exactly when its one successor `t` is in `Y`. */
  lemma PreOfEdge<S(!new), A(!new)>(sigma: set<A>, inv: map<(A, S), set<S>>, a: A, t: S, q: S, Y: set<S>)
    requires Deterministic(sigma, inv) && a in sigma
    requires q in Preds(inv, a, t)
    ensures q in Pre(inv, a, Y) <==> t in Y
  {
    if q in Pre(inv, a, Y) {
      var t' := PreElim(inv, a, Y, q);
      assert t' == t;
    }
    if t in Y {
      PreIntro(inv, a, Y, t, q);
    }
  }

  /**
   * With at most one `a`-edge per state, the predecessors of `X - Y` are the
   * predecessors of `X` that are not predecessors of `Y`.
   */
  lemma PreDifference<S(!new), A(!new)>(sigma: set<A>, inv: map<(A, S), set<S>>, a: A, X: set<S>, Y: set<S>)
    requires Deterministic(sigma, inv) && a in sigma
    ensures Pre(inv, a, X - Y) == Pre(inv, a, X) - Pre(inv, a, Y)
  {
    forall q | q in Pre(inv, a, X) - Pre(inv, a, Y)
      ensures q in Pre(inv, a, X - Y)
    {
      var t := PreElim(inv, a, X, q);
      PreOfEdge(sigma, inv, a, t, q, Y);
      PreIntro(inv, a, X - Y, t, q);
    }
    forall q | q in Pre(inv, a, X - Y)
      ensures q in Pre(inv, a, X) && q !in Pre(inv, a, Y)
    {
      var t := PreElim(inv, a, X - Y, q);
      PreIntro(inv, a, X, t, q);
      PreOfEdge(sigma, inv, a, t, q, Y);
    }
  }

  /** Stability with respect to `X` and to `Y` gives stability with respect to `X - Y`. */
  lemma StableDifference<S(!new), A(!new)>(P: set<set<S>>, inv: map<(A, S), set<S>>, sigma: set<A>, X: set<S>, Y: set<S>)
    requires Deterministic(sigma, inv)
    requires StableAll(P, inv, sigma, X) && StableAll(P, inv, sigma, Y)
    ensures StableAll(P, inv, sigma, X - Y)
  {
    forall a | a in sigma
      ensures StableOn(P, inv, a, X - Y)
    {
      PreDifference(sigma, inv, a, X, Y);
      forall B | B in P
        ensures B <= Pre(inv, a, X - Y) || B !! Pre(inv, a, X - Y)
      {
        assert StableOn(P, inv, a, X) && StableOn(P, inv, a, Y);
      }
    }
  }

  /** In a complete deterministic automaton, `q` precedes `X` on `a` exactly when its successor is in `X`. */
  lemma PreBySucc<S(!new), A(!new)>(acc: set<S>, sigma: set<A>, inv: map<(A, S), set<S>>, a: A, q: S, X: set<S>)
    requires IsCompleteDfa(acc, sigma, inv) && a in sigma && q in Universe(acc, inv)
    ensures HasSucc(inv, a, q)
    ensures q in Pre(inv, a, X) <==> Succ(inv, a, q) in X
  {
    assert HasSucc(inv, a, q);
    var t := Succ(inv, a, q);
    if q in Pre(inv, a, X) {
      var t' := PreElim(inv, a, X, q);
      SuccOf(sigma, inv, a, q, t');
    }
    if t in X {
      PreIntro(inv, a, X, t, q);
    }
  }

  /** Reading one symbol first is moving to the successor. */
  lemma AcceptsStep<S(!new), A(!new)>(acc: set<S>, inv: map<(A, S), set<S>>, a: A, q: S, w: seq<A>)
    requires HasSucc(inv, a, q)
    ensures Accepts(acc, inv, q, [a] + w) == Accepts(acc, inv, Succ(inv, a, q), w)
  {
    assert ([a] + w)[0] == a && ([a] + w)[1..] == w;
  }

  /** Equivalent states agree on acceptance (the empty word). */
  lemma EquivalentAccepting<S(!new), A(!new)>(acc: set<S>, sigma: set<A>, inv: map<(A, S), set<S>>, q: S, r: S)
    requires Equivalent(acc, sigma, inv, q, r)
    ensures q in acc <==> r in acc
  {
    var w: seq<A> := [];
    assert IsWord(sigma, w);
    assert Accepts(acc, inv, q, w) <==> Accepts(acc, inv, r, w);
  }

  /** Equivalent states have equivalent successors on every declared symbol. */
  lemma EquivalentSucc<S(!new), A(!new)>(acc: set<S>, sigma: set<A>, inv: map<(A, S), set<S>>, a: A, q: S, r: S)
    requires a in sigma && HasSucc(inv, a, q) && HasSucc(inv, a, r)
    requires Equivalent(acc, sigma, inv, q, r)
    ensures Equivalent(acc, sigma, inv, Succ(inv, a, q), Succ(inv, a, r))
  {
    forall w | IsWord(sigma, w)
      ensures Accepts(acc, inv, Succ(inv, a, q), w) <==> Accepts(acc, inv, Succ(inv, a, r), w)
    {
      assert IsWord(sigma, [a] + w);
      AcceptsStep(acc, inv, a, q, w);
      AcceptsStep(acc, inv, a, r, w);
    }
  }

  /** In a complete automaton every partition of the universe is stable with respect to the universe. */
  lemma UniverseStable<S(!new), A(!new)>(acc: set<S>, sigma: set<A>, inv: map<(A, S), set<S>>, P: set<set<S>>)
    requires Complete(acc, sigma, inv)
    requires forall B :: B in P ==> B <= Universe(acc, inv)
    ensures StableAll(P, inv, sigma, Universe(acc, inv))
  {
    var Q := Universe(acc, inv);
    forall a, q | a in sigma && q in Q
      ensures q in Pre(inv, a, Q)
    {
      assert HasSucc(inv, a, q);
      var t :| q in Preds(inv, a, t);
      PredsInUniverse(acc, inv, a, t);
      PreIntro(inv, a, Q, t, q);
    }
  }

  /** Two states in one block of a stable partition move, on a declared symbol, into one block. */
  lemma StepTogether<S(!new), A(!new)>(
    acc: set<S>, sigma: set<A>, inv: map<(A, S), set<S>>, P: set<set<S>>, B: set<S>, q: S, r: S, a: A)
    returns (C: set<S>)
    requires IsCompleteDfa(acc, sigma, inv)
    requires IsPartition(P, Universe(acc, inv)) && IsStable(P, inv, sigma)
    requires B in P && q in B && r in B && a in sigma
    ensures HasSucc(inv, a, q) && HasSucc(inv, a, r)
    ensures C in P && Succ(inv, a, q) in C && Succ(inv, a, r) in C
  {
    var Q := Universe(acc, inv);
    assert q in Q && r in Q;
    PreBySucc(acc, sigma, inv, a, q, {});
    PreBySucc(acc, sigma, inv, a, r, {});
    var q' := Succ(inv, a, q);
    SuccInUniverse(acc, inv, a, q);
    assert Covered(P, q');
    C :| C in P && q' in C;
    PreBySucc(acc, sigma, inv, a, q, C);
    PreBySucc(acc, sigma, inv, a, r, C);
    assert StableAll(P, inv, sigma, C);
    StableBlock(P, inv, a, C, B, q, r);
  }

  /** In a block that is stable on `a` with respect to `C`, one predecessor of `C` makes all of them predecessors. */
  lemma StableBlock<S(!new), A(!new)>(P: set<set<S>>, inv: map<(A, S), set<S>>, a: A, C: set<S>, B: set<S>, q: S, r: S)
    requires StableOn(P, inv, a, C)
    requires B in P && q in B && r in B && q in Pre(inv, a, C)
    ensures r in Pre(inv, a, C)
  {
  }

  /**
   * Two states in one block of a stable partition that separates accepting
   * from rejecting states accept the same words.
   */
  lemma {:induction false} SameBlockAccepts<S(!new), A(!new)>(
    acc: set<S>, sigma: set<A>, inv: map<(A, S), set<S>>, P: set<set<S>>, B: set<S>, q: S, r: S, w: seq<A>)
    requires IsCompleteDfa(acc, sigma, inv)
    requires IsPartition(P, Universe(acc, inv)) && Respects(P, acc) && IsStable(P, inv, sigma)
    requires B in P && q in B && r in B && IsWord(sigma, w)
    ensures Accepts(acc, inv, q, w) <==> Accepts(acc, inv, r, w)
    decreases |w|
  {
    if |w| == 0 {
      assert B <= acc || B !! acc;
    } else {
      var a := w[0];
      var C := StepTogether(acc, sigma, inv, P, B, q, r, a);
      assert IsWord(sigma, w[1..]);
      SameBlockAccepts(acc, sigma, inv, P, C, Succ(inv, a, q), Succ(inv, a, r), w[1..]);
    }
  }

  /** A stable partition that separates accepting from rejecting states merges only equivalent states. */
  lemma StableSound<S(!new), A(!new)>(acc: set<S>, sigma: set<A>, inv: map<(A, S), set<S>>, P: set<set<S>>)
    requires IsCompleteDfa(acc, sigma, inv)
    requires IsPartition(P, Universe(acc, inv)) && Respects(P, acc) && IsStable(P, inv, sigma)
    ensures forall B, q, r :: B in P && q in B && r in B ==> Equivalent(acc, sigma, inv, q, r)
  {
    forall B, q, r | B in P && q in B && r in B
      ensures Equivalent(acc, sigma, inv, q, r)
    {
      forall w | IsWord(sigma, w)
        ensures Accepts(acc, inv, q, w) <==> Accepts(acc, inv, r, w)
      {
        SameBlockAccepts(acc, sigma, inv, P, B, q, r, w);
      }
    }
  }

  /** Two partitions that both consist of the Myhill–Nerode classes are the same partition. */
  lemma MyhillNerodeUnique<S(!new), A(!new)>(acc: set<S>, sigma: set<A>, inv: map<(A, S), set<S>>, P1: set<set<S>>, P2: set<set<S>>)
    requires IsPartition(P1, Universe(acc, inv)) && MyhillNerodeClasses(acc, sigma, inv, P1)
    requires IsPartition(P2, Universe(acc, inv)) && MyhillNerodeClasses(acc, sigma, inv, P2)
    ensures P1 == P2
  {
    forall B | B in P1
      ensures B in P2
    {
      SameClass(acc, sigma, inv, P1, P2, B);
    }
    forall B | B in P2
      ensures B in P1
    {
      SameClass(acc, sigma, inv, P2, P1, B);
    }
  }

  lemma SameClass<S(!new), A(!new)>(acc: set<S>, sigma: set<A>, inv: map<(A, S), set<S>>, P1: set<set<S>>, P2: set<set<S>>, B: set<S>)
    requires IsPartition(P1, Universe(acc, inv)) && MyhillNerodeClasses(acc, sigma, inv, P1)
    requires IsPartition(P2, Universe(acc, inv)) && MyhillNerodeClasses(acc, sigma, inv, P2)
    requires B in P1
    ensures B in P2
  {
    assert B != {} && B <= Universe(acc, inv);
    var q :| q in B;
    assert Covered(P2, q);
    var B2 :| B2 in P2 && q in B2;
    assert B == EquivalenceClass(acc, sigma, inv, q) == B2;
  }
}
