/**
 * The invariant of Hopcroft's refinement loop and the proof that each step
 * of the loop keeps it.
 *
 * Between two splitters the loop state is the partition `P`, its index
 * `blockOf` and the worklist `W`.  While a splitter is being processed the
 * state also names that splitter and the symbols already handled for it.
 * Besides the structural facts (an indexed partition of the universe that
 * separates accepting states, with the worklist among its blocks), the
 * invariant carries the two halves of the correctness argument for a
 * complete DFA:
 *   - Witnessed: every block that is neither queued nor inside the active
 *     splitter lies in a set `X` that the partition is already stable
 *     against and whose other states sit in queued blocks or in the
 *     splitter.  With an empty worklist `X` is the block itself, so the
 *     final partition is stable.  This is the "process the smaller half"
 *     argument: a block split off by the larger half needs no queueing
 *     because it is stable against the difference of two sets it is
 *     stable against.
 *   - Coarse: equivalent states always share a block.
 */
module Refinement {
  import opened Collector
  import opened Partitions
  import opened Automaton

  /** The worklist after block `Y` is replaced by `part1` and `part2`. */
  ghost function Requeued<S>(W: set<set<S>>, Y: set<S>, part1: set<S>, part2: set<S>): set<set<S>>
  {
    if Y in W then W - {Y} + {part1, part2}
    else if |part1| <= |part2| then W + {part1}
    else W + {part2}
  }

  /** At most one block inside the active splitter is off the worklist. */
  ghost predicate OnePiece<S>(P: set<set<S>>, W: set<set<S>>, splitter: set<S>)
  {
    forall B1, B2 :: B1 in P && B2 in P && B1 <= splitter && B2 <= splitter && B1 !in W && B2 !in W ==> B1 == B2
  }

  /**
   * `X` vouches for block `C`: it contains `C`, the partition is stable
   * against it, and its other states lie in queued blocks or in the splitter.
   */
  ghost predicate Witness<S(!new), A(!new)>(
    inv: map<(A, S), set<S>>, sigma: set<A>, P: set<set<S>>, blockOf: map<S, set<S>>,
    W: set<set<S>>, splitter: set<S>, C: set<S>, X: set<S>)
  {
    && C <= X && X <= blockOf.Keys
    && (forall x :: x in X && x !in C ==> blockOf[x] in W || blockOf[x] <= splitter)
    && StableAll(P, inv, sigma, X)
  }

  ghost predicate HasWitness<S(!new), A(!new)>(
    inv: map<(A, S), set<S>>, sigma: set<A>, P: set<set<S>>, blockOf: map<S, set<S>>,
    W: set<set<S>>, splitter: set<S>, C: set<S>)
  {
    exists X :: Witness(inv, sigma, P, blockOf, W, splitter, C, X)
  }

  /** Every block that is neither queued nor inside the splitter has a witness. */
  ghost predicate Witnessed<S(!new), A(!new)>(
    inv: map<(A, S), set<S>>, sigma: set<A>, P: set<set<S>>, blockOf: map<S, set<S>>,
    W: set<set<S>>, splitter: set<S>)
  {
    forall C :: C in P && C !in W && !(C <= splitter) ==> HasWitness(inv, sigma, P, blockOf, W, splitter, C)
  }

  /** Equivalent states share a block. */
  ghost predicate Coarse<S(!new), A(!new)>(acc: set<S>, sigma: set<A>, inv: map<(A, S), set<S>>, blockOf: map<S, set<S>>)
  {
    forall q, r :: q in blockOf && r in blockOf && Equivalent(acc, sigma, inv, q, r) ==> blockOf[q] == blockOf[r]
  }

  /**
   * The loop invariant, while `splitter` is processed and the symbols `done`
   * have been handled for it (between splitters: both empty).
   */
  ghost predicate Inv<S(!new), A(!new)>(
    acc: set<S>, sigma: set<A>, inv: map<(A, S), set<S>>, Q: set<S>,
    P: set<set<S>>, blockOf: map<S, set<S>>, W: set<set<S>>, splitter: set<S>, done: set<A>)
  {
    && Q == Universe(acc, inv)
    && Indexed(blockOf, P, Q)
    && W <= P
    && Respects(P, acc)
    && splitter <= Q
    && Respects(P, splitter)
    && OnePiece(P, W, splitter)
    && (forall a :: a in done ==> StableOn(P, inv, a, splitter))
    && (IsCompleteDfa(acc, sigma, inv) ==>
          Witnessed(inv, sigma, P, blockOf, W, splitter) && Coarse(acc, sigma, inv, blockOf))
  }

  // ---------------------------------------------------------------------------
  // One split: Y becomes O and Y - O.
  // ---------------------------------------------------------------------------

  /** A split keeps every set the partition respects respected. */
  lemma SplitRespects<S>(P: set<set<S>>, Y: set<S>, O: set<S>, F: set<S>)
    requires Y in P && O <= Y && Respects(P, F)
    ensures Respects(SplitOff(P, Y, O), F)
  {
    assert Y <= F || Y !! F;
  }

  /** A split keeps stability against any set. */
  lemma SplitStableAll<S(!new), A(!new)>(P: set<set<S>>, Y: set<S>, O: set<S>, inv: map<(A, S), set<S>>, sigma: set<A>, X: set<S>)
    requires Y in P && O <= Y && StableAll(P, inv, sigma, X)
    ensures StableAll(SplitOff(P, Y, O), inv, sigma, X)
  {
    forall a | a in sigma
      ensures StableOn(SplitOff(P, Y, O), inv, a, X)
    {
      assert StableOn(P, inv, a, X);
      SplitRespects(P, Y, O, Pre(inv, a, X));
    }
  }

  /** Where one state is indexed after a split. */
  lemma SplitIndexOf<S>(blockOf: map<S, set<S>>, Y: set<S>, O: set<S>, x: S)
    requires O <= Y
    ensures x in O ==> Retargeted(Retargeted(blockOf, O), Y - O)[x] == O
    ensures x in Y - O ==> Retargeted(Retargeted(blockOf, O), Y - O)[x] == Y - O
    ensures x in blockOf && x !in Y ==> Retargeted(Retargeted(blockOf, O), Y - O)[x] == blockOf[x]
  {
    RetargetedAt(blockOf, O, x);
    RetargetedAt(Retargeted(blockOf, O), Y - O, x);
  }

  /** What the worklist holds after a split. */
  lemma RequeuedAt<S>(W: set<set<S>>, Y: set<S>, O: set<S>, B: set<S>)
    requires O != Y - O
    ensures B != Y && B != O && B != Y - O ==> (B in Requeued(W, Y, O, Y - O) <==> B in W)
    ensures Y in W ==> O in Requeued(W, Y, O, Y - O) && Y - O in Requeued(W, Y, O, Y - O)
    ensures Y !in W && O !in W && Y - O !in W ==> (O in Requeued(W, Y, O, Y - O) <==> Y - O !in Requeued(W, Y, O, Y - O))
    ensures O in Requeued(W, Y, O, Y - O) || Y - O in Requeued(W, Y, O, Y - O)
  {
  }

  /** The split parts replace `Y` on the worklist or one of them joins it; the worklist stays among the blocks. */
  lemma SplitQueue<S>(blockOf: map<S, set<S>>, P: set<set<S>>, Q: set<S>, W: set<set<S>>, Y: set<S>, O: set<S>)
    requires Indexed(blockOf, P, Q) && W <= P
    requires Y in P && O <= Y && O != {} && O != Y
    ensures Requeued(W, Y, O, Y - O) <= SplitOff(P, Y, O)
  {
  }

  /** A split keeps at most one unqueued block inside the splitter. */
  lemma SplitOnePiece<S>(blockOf: map<S, set<S>>, P: set<set<S>>, Q: set<S>, W: set<set<S>>, splitter: set<S>, Y: set<S>, O: set<S>)
    requires Indexed(blockOf, P, Q) && W <= P
    requires Y in P && O <= Y && O != {} && O != Y
    requires Respects(P, splitter) && OnePiece(P, W, splitter)
    ensures OnePiece(SplitOff(P, Y, O), Requeued(W, Y, O, Y - O), splitter)
  {
    SplitParts(blockOf, P, Q, Y, O);
    var P', W' := SplitOff(P, Y, O), Requeued(W, Y, O, Y - O);
    forall B1, B2 | B1 in P' && B2 in P' && B1 <= splitter && B2 <= splitter && B1 !in W' && B2 !in W'
      ensures B1 == B2
    {
      OpenPiece(blockOf, P, Q, W, splitter, Y, O, B1);
      OpenPiece(blockOf, P, Q, W, splitter, Y, O, B2);
      RequeuedAt(W, Y, O, B1);
      RequeuedAt(W, Y, O, B2);
    }
  }

  /** An unqueued block inside the splitter after a split was one before, or is a half of one. */
  lemma OpenPiece<S>(blockOf: map<S, set<S>>, P: set<set<S>>, Q: set<S>, W: set<set<S>>, splitter: set<S>, Y: set<S>, O: set<S>, B: set<S>)
    requires Indexed(blockOf, P, Q) && W <= P
    requires Y in P && O <= Y && O != {} && O != Y
    requires Respects(P, splitter)
    requires B in SplitOff(P, Y, O) && B <= splitter && B !in Requeued(W, Y, O, Y - O)
    ensures B in P - {Y} ==> B !in W
    ensures B !in P - {Y} ==> Y <= splitter && Y !in W
  {
    SplitParts(blockOf, P, Q, Y, O);
    RequeuedAt(W, Y, O, B);
    if B !in P - {Y} {
      var x :| x in B;
      assert x in Y && x in splitter;
      assert Y <= splitter || Y !! splitter;
    }
  }

  /**
   * A witness `X` of block `D` before a split vouches afterwards for `C`,
   * which is `D` itself or, when `D` is the split block and was not
   * queued, its unqueued half.
   */
  lemma SplitWitness<S(!new), A(!new)>(
    inv: map<(A, S), set<S>>, sigma: set<A>, blockOf: map<S, set<S>>, P: set<set<S>>, Q: set<S>,
    W: set<set<S>>, splitter: set<S>, Y: set<S>, O: set<S>, C: set<S>, D: set<S>, X: set<S>)
    requires Indexed(blockOf, P, Q) && W <= P
    requires Y in P && O <= Y && O != {} && O != Y
    requires D in P && Witness(inv, sigma, P, blockOf, W, splitter, D, X)
    requires C in SplitOff(P, Y, O) && C !in Requeued(W, Y, O, Y - O)
    requires C == D || (D == Y && Y !in W && (C == O || C == Y - O))
    ensures Witness(inv, sigma, SplitOff(P, Y, O), Retargeted(Retargeted(blockOf, O), Y - O),
                    Requeued(W, Y, O, Y - O), splitter, C, X)
  {
    var m', W' := Retargeted(Retargeted(blockOf, O), Y - O), Requeued(W, Y, O, Y - O);
    SplitParts(blockOf, P, Q, Y, O);
    SplitKeys(blockOf, P, Q, Y, O);
    SplitStableAll(P, Y, O, inv, sigma, X);
    RequeuedAt(W, Y, O, O);
    forall x | x in X && x !in C
      ensures m'[x] in W' || m'[x] <= splitter
    {
      SplitIndexOf(blockOf, Y, O, x);
      assert x in Q;
      if x !in Y {
        assert blockOf[x] != Y;
        RequeuedAt(W, Y, O, blockOf[x]);
      }
    }
  }

  /** One block after a split has a witness if it needs one. */
  lemma SplitWitnessedAt<S(!new), A(!new)>(
    inv: map<(A, S), set<S>>, sigma: set<A>, blockOf: map<S, set<S>>, P: set<set<S>>, Q: set<S>,
    W: set<set<S>>, splitter: set<S>, Y: set<S>, O: set<S>, C: set<S>)
    requires Indexed(blockOf, P, Q) && W <= P
    requires Y in P && O <= Y && O != {} && O != Y
    requires Witnessed(inv, sigma, P, blockOf, W, splitter)
    requires C in SplitOff(P, Y, O) && C !in Requeued(W, Y, O, Y - O) && !(C <= splitter)
    ensures HasWitness(inv, sigma, SplitOff(P, Y, O), Retargeted(Retargeted(blockOf, O), Y - O),
                       Requeued(W, Y, O, Y - O), splitter, C)
  {
    SplitParts(blockOf, P, Q, Y, O);
    RequeuedAt(W, Y, O, C);
    RequeuedAt(W, Y, O, O);
    if C in P - {Y} {
      assert HasWitness(inv, sigma, P, blockOf, W, splitter, C);
      var X :| Witness(inv, sigma, P, blockOf, W, splitter, C, X);
      SplitWitness(inv, sigma, blockOf, P, Q, W, splitter, Y, O, C, C, X);
    } else {
      assert C == O || C == Y - O;
      assert !(Y <= splitter);
      assert HasWitness(inv, sigma, P, blockOf, W, splitter, Y);
      var X :| Witness(inv, sigma, P, blockOf, W, splitter, Y, X);
      SplitWitness(inv, sigma, blockOf, P, Q, W, splitter, Y, O, C, Y, X);
    }
  }

  lemma SplitWitnessed<S(!new), A(!new)>(
    inv: map<(A, S), set<S>>, sigma: set<A>, blockOf: map<S, set<S>>, P: set<set<S>>, Q: set<S>,
    W: set<set<S>>, splitter: set<S>, Y: set<S>, O: set<S>)
    requires Indexed(blockOf, P, Q) && W <= P
    requires Y in P && O <= Y && O != {} && O != Y
    requires Witnessed(inv, sigma, P, blockOf, W, splitter)
    ensures Witnessed(inv, sigma, SplitOff(P, Y, O), Retargeted(Retargeted(blockOf, O), Y - O),
                      Requeued(W, Y, O, Y - O), splitter)
  {
    forall C | C in SplitOff(P, Y, O) && C !in Requeued(W, Y, O, Y - O) && !(C <= splitter)
      ensures HasWitness(inv, sigma, SplitOff(P, Y, O), Retargeted(Retargeted(blockOf, O), Y - O),
                         Requeued(W, Y, O, Y - O), splitter, C)
    {
      SplitWitnessedAt(inv, sigma, blockOf, P, Q, W, splitter, Y, O, C);
    }
  }

  /**
   * Equivalent states of the split block both precede the splitter on `a`
   * or both do not, so they land in the same half.
   */
  lemma SplitCoarseAt<S(!new), A(!new)>(
    acc: set<S>, sigma: set<A>, inv: map<(A, S), set<S>>, blockOf: map<S, set<S>>, P: set<set<S>>, Q: set<S>,
    splitter: set<S>, a: A, Y: set<S>, O: set<S>, q: S, r: S)
    requires IsCompleteDfa(acc, sigma, inv) && Q == Universe(acc, inv)
    requires Indexed(blockOf, P, Q) && Respects(P, splitter) && Coarse(acc, sigma, inv, blockOf)
    requires a in sigma && Y in P && O == Y * Pre(inv, a, splitter)
    requires q in Q && r in Q && Equivalent(acc, sigma, inv, q, r)
    ensures Retargeted(Retargeted(blockOf, O), Y - O)[q] == Retargeted(Retargeted(blockOf, O), Y - O)[r]
  {
    SplitIndexOf(blockOf, Y, O, q);
    SplitIndexOf(blockOf, Y, O, r);
    assert blockOf[q] == blockOf[r];
    if q in Y {
      assert r in Y;
      PreBySucc(acc, sigma, inv, a, q, splitter);
      PreBySucc(acc, sigma, inv, a, r, splitter);
      var q', r' := Succ(inv, a, q), Succ(inv, a, r);
      SuccInUniverse(acc, inv, a, q);
      SuccInUniverse(acc, inv, a, r);
      EquivalentSucc(acc, sigma, inv, a, q, r);
      assert blockOf[q'] == blockOf[r'];
      var B := blockOf[q'];
      assert B in P && q' in B && r' in B;
      assert B <= splitter || B !! splitter;
      assert q' in splitter <==> r' in splitter;
    }
  }

  lemma SplitCoarse<S(!new), A(!new)>(
    acc: set<S>, sigma: set<A>, inv: map<(A, S), set<S>>, blockOf: map<S, set<S>>, P: set<set<S>>, Q: set<S>,
    splitter: set<S>, a: A, Y: set<S>, O: set<S>)
    requires IsCompleteDfa(acc, sigma, inv) && Q == Universe(acc, inv)
    requires Indexed(blockOf, P, Q) && Respects(P, splitter) && Coarse(acc, sigma, inv, blockOf)
    requires a in sigma && Y in P && O == Y * Pre(inv, a, splitter)
    ensures Coarse(acc, sigma, inv, Retargeted(Retargeted(blockOf, O), Y - O))
  {
    var m' := Retargeted(Retargeted(blockOf, O), Y - O);
    SplitKeys(blockOf, P, Q, Y, O);
    forall q, r | q in m' && r in m' && Equivalent(acc, sigma, inv, q, r)
      ensures m'[q] == m'[r]
    {
      SplitCoarseAt(acc, sigma, inv, blockOf, P, Q, splitter, a, Y, O, q, r);
    }
  }

  /** Splitting an affected block keeps the invariant and adds one block. */
  lemma SplitInv<S(!new), A(!new)>(
    acc: set<S>, sigma: set<A>, inv: map<(A, S), set<S>>, Q: set<S>,
    P: set<set<S>>, blockOf: map<S, set<S>>, W: set<set<S>>, splitter: set<S>, done: set<A>,
    a: A, Y: set<S>, O: set<S>)
    requires Inv(acc, sigma, inv, Q, P, blockOf, W, splitter, done)
    requires a in sigma && Y in P && O == Y * Pre(inv, a, splitter) && O != {} && O != Y
    ensures Inv(acc, sigma, inv, Q, SplitOff(P, Y, O), Retargeted(Retargeted(blockOf, O), Y - O),
                Requeued(W, Y, O, Y - O), splitter, done)
    ensures |SplitOff(P, Y, O)| == |P| + 1
  {
    var P' := SplitOff(P, Y, O);
    SplitIndexed(blockOf, P, Q, Y, O);
    SplitCount(blockOf, P, Q, Y, O);
    SplitQueue(blockOf, P, Q, W, Y, O);
    SplitRespects(P, Y, O, acc);
    SplitRespects(P, Y, O, splitter);
    SplitOnePiece(blockOf, P, Q, W, splitter, Y, O);
    forall b | b in done
      ensures StableOn(P', inv, b, splitter)
    {
      assert StableOn(P, inv, b, splitter);
      SplitRespects(P, Y, O, Pre(inv, b, splitter));
    }
    if IsCompleteDfa(acc, sigma, inv) {
      SplitWitnessed(inv, sigma, blockOf, P, Q, W, splitter, Y, O);
      SplitCoarse(acc, sigma, inv, blockOf, P, Q, splitter, a, Y, O);
    }
  }

  // ---------------------------------------------------------------------------
  // Taking a splitter off the worklist, and finishing with it.
  // ---------------------------------------------------------------------------

  /** Two blocks of an indexed partition that share a state are the same block. */
  lemma SharedState<S>(blockOf: map<S, set<S>>, P: set<set<S>>, Q: set<S>, B: set<S>, D: set<S>, x: S)
    requires Indexed(blockOf, P, Q)
    requires B in P && D in P && x in B && x in D
    ensures B == D
  {
    assert blockOf[x] == B && blockOf[x] == D;
  }

  /** A block is the only block that meets it. */
  lemma BlockAlone<S>(blockOf: map<S, set<S>>, P: set<set<S>>, Q: set<S>, D: set<S>)
    requires Indexed(blockOf, P, Q) && D in P
    ensures Respects(P, D) && OnePiece(P, {}, D)
  {
    forall B | B in P && !(B !! D)
      ensures B == D
    {
      var x :| x in B && x in D;
      SharedState(blockOf, P, Q, B, D, x);
    }
    forall B | B in P && B <= D
      ensures B == D
    {
      assert B != {};
      var x :| x in B;
      SharedState(blockOf, P, Q, B, D, x);
    }
  }

  lemma PopWitnessedAt<S(!new), A(!new)>(
    inv: map<(A, S), set<S>>, sigma: set<A>, blockOf: map<S, set<S>>, P: set<set<S>>, Q: set<S>,
    W: set<set<S>>, splitter: set<S>, C: set<S>)
    requires Indexed(blockOf, P, Q) && splitter in W && W <= P
    requires Witnessed(inv, sigma, P, blockOf, W, {})
    requires C in P && C !in W - {splitter} && !(C <= splitter)
    ensures HasWitness(inv, sigma, P, blockOf, W - {splitter}, splitter, C)
  {
    assert C !in W && !(C <= {});
    assert HasWitness(inv, sigma, P, blockOf, W, {}, C);
    var X :| Witness(inv, sigma, P, blockOf, W, {}, C, X);
    forall x | x in X && x !in C
      ensures blockOf[x] in W - {splitter} || blockOf[x] <= splitter
    {
      assert x in blockOf[x];
    }
    assert Witness(inv, sigma, P, blockOf, W - {splitter}, splitter, C, X);
  }

  /** Taking a splitter off the worklist keeps the invariant, with that splitter active. */
  lemma PopInv<S(!new), A(!new)>(
    acc: set<S>, sigma: set<A>, inv: map<(A, S), set<S>>, Q: set<S>,
    P: set<set<S>>, blockOf: map<S, set<S>>, W: set<set<S>>, splitter: set<S>)
    requires Inv(acc, sigma, inv, Q, P, blockOf, W, {}, {}) && splitter in W
    ensures Inv(acc, sigma, inv, Q, P, blockOf, W - {splitter}, splitter, {})
  {
    BlockAlone(blockOf, P, Q, splitter);
    assert splitter <= Q by {
      forall x | x in splitter
        ensures x in Q
      {
      }
    }
    if IsCompleteDfa(acc, sigma, inv) {
      forall C | C in P && C !in W - {splitter} && !(C <= splitter)
        ensures HasWitness(inv, sigma, P, blockOf, W - {splitter}, splitter, C)
      {
        PopWitnessedAt(inv, sigma, blockOf, P, Q, W, splitter, C);
      }
    }
  }

  lemma FinishWitnessedAt<S(!new), A(!new)>(
    acc: set<S>, sigma: set<A>, inv: map<(A, S), set<S>>, Q: set<S>,
    P: set<set<S>>, blockOf: map<S, set<S>>, W: set<set<S>>, splitter: set<S>, C: set<S>)
    requires Inv(acc, sigma, inv, Q, P, blockOf, W, splitter, sigma) && IsCompleteDfa(acc, sigma, inv)
    requires C in P && C !in W
    ensures HasWitness(inv, sigma, P, blockOf, W, {}, C)
  {
    assert StableAll(P, inv, sigma, splitter);
    if C <= splitter {
      forall x | x in splitter && x !in C
        ensures blockOf[x] in W
      {
        var B := blockOf[x];
        assert B in P && x in B;
        assert B <= splitter || B !! splitter;
      }
      assert Witness(inv, sigma, P, blockOf, W, {}, C, splitter);
    } else {
      assert HasWitness(inv, sigma, P, blockOf, W, splitter, C);
      var X :| Witness(inv, sigma, P, blockOf, W, splitter, C, X);
      assert C !! splitter;
      StableDifference(P, inv, sigma, X, splitter);
      forall x | x in X - splitter && x !in C
        ensures blockOf[x] in W
      {
        assert x in blockOf[x];
      }
      assert Witness(inv, sigma, P, blockOf, W, {}, C, X - splitter);
    }
  }

  /**
   * Once every symbol has been handled for the splitter, the partition is
   * stable against it, and the invariant holds with no splitter active.
   */
  lemma FinishInv<S(!new), A(!new)>(
    acc: set<S>, sigma: set<A>, inv: map<(A, S), set<S>>, Q: set<S>,
    P: set<set<S>>, blockOf: map<S, set<S>>, W: set<set<S>>, splitter: set<S>)
    requires Inv(acc, sigma, inv, Q, P, blockOf, W, splitter, sigma)
    ensures StableAll(P, inv, sigma, splitter)
    ensures Inv(acc, sigma, inv, Q, P, blockOf, W, {}, {})
  {
    if IsCompleteDfa(acc, sigma, inv) {
      forall C | C in P && C !in W && !(C <= {})
        ensures HasWitness(inv, sigma, P, blockOf, W, {}, C)
      {
        FinishWitnessedAt(acc, sigma, inv, Q, P, blockOf, W, splitter, C);
      }
    }
  }

  // ---------------------------------------------------------------------------
  // Start and end of the loop.
  // ---------------------------------------------------------------------------

  /**
   * The two-block start {F, Q - F}, with either block as the first
   * splitter, satisfies the invariant.
   */
  lemma InitInv<S(!new), A(!new)>(
    acc: set<S>, sigma: set<A>, inv: map<(A, S), set<S>>, Q: set<S>,
    blockOf: map<S, set<S>>, F: set<S>, W: set<set<S>>)
    requires Q == Universe(acc, inv) && F == acc * Q && F != {} && Q - F != {}
    requires Indexed(blockOf, {F, Q - F}, Q)
    requires W == {F} || W == {Q - F}
    ensures Inv(acc, sigma, inv, Q, {F, Q - F}, blockOf, W, {}, {})
  {
    var P := {F, Q - F};
    assert Respects(P, acc);
    if IsCompleteDfa(acc, sigma, inv) {
      UniverseStable(acc, sigma, inv, P);
      forall C | C in P && C !in W && !(C <= {})
        ensures HasWitness(inv, sigma, P, blockOf, W, {}, C)
      {
        forall x | x in Q && x !in C
          ensures blockOf[x] in W
        {
          assert blockOf[x] in P && x in blockOf[x];
        }
        assert Witness(inv, sigma, P, blockOf, W, {}, C, Q);
      }
      forall q, r | q in blockOf && r in blockOf && Equivalent(acc, sigma, inv, q, r)
        ensures blockOf[q] == blockOf[r]
      {
        EquivalentAccepting(acc, sigma, inv, q, r);
        if q in F {
          assert blockOf[q] == F == blockOf[r];
        } else {
          assert blockOf[q] == Q - F == blockOf[r];
        }
      }
    }
  }

  /** With nothing queued and no splitter active, every witness is its own block. */
  lemma FinalStable<S(!new), A(!new)>(
    acc: set<S>, sigma: set<A>, inv: map<(A, S), set<S>>, Q: set<S>,
    P: set<set<S>>, blockOf: map<S, set<S>>, C: set<S>)
    requires Inv(acc, sigma, inv, Q, P, blockOf, {}, {}, {}) && IsCompleteDfa(acc, sigma, inv)
    requires C in P
    ensures StableAll(P, inv, sigma, C)
  {
    assert C != {};
    assert HasWitness(inv, sigma, P, blockOf, {}, {}, C);
    var X :| Witness(inv, sigma, P, blockOf, {}, {}, C, X);
    forall x | x in X
      ensures x in C
    {
      assert x in blockOf[x];
    }
    assert X == C;
  }

  /**
   * When the worklist runs out on a complete DFA, the partition is stable
   * and its blocks are exactly the Myhill–Nerode classes.
   */
  lemma FinalInv<S(!new), A(!new)>(
    acc: set<S>, sigma: set<A>, inv: map<(A, S), set<S>>, Q: set<S>,
    P: set<set<S>>, blockOf: map<S, set<S>>)
    requires Inv(acc, sigma, inv, Q, P, blockOf, {}, {}, {}) && IsCompleteDfa(acc, sigma, inv)
    ensures IsStable(P, inv, sigma)
    ensures MyhillNerodeClasses(acc, sigma, inv, P)
  {
    forall C | C in P
      ensures StableAll(P, inv, sigma, C)
    {
      FinalStable(acc, sigma, inv, Q, P, blockOf, C);
    }
    IndexedIsPartition(blockOf, P, Q);
    StableSound(acc, sigma, inv, P);
    forall B, q | B in P && q in B
      ensures B == EquivalenceClass(acc, sigma, inv, q)
    {
      forall r | r in EquivalenceClass(acc, sigma, inv, q)
        ensures r in B
      {
        assert blockOf[q] == B && blockOf[r] == blockOf[q];
      }
    }
  }

  /**
   * In a complete DFA whose states all accept, or all reject, a state
   * accepts a word exactly when it accepts the empty word.
   */
  lemma {:induction false} AcceptsHomogeneous<S(!new), A(!new)>(
    acc: set<S>, sigma: set<A>, inv: map<(A, S), set<S>>, q: S, w: seq<A>)
    requires IsCompleteDfa(acc, sigma, inv)
    requires Universe(acc, inv) <= acc || Universe(acc, inv) !! acc
    requires q in Universe(acc, inv) && IsWord(sigma, w)
    ensures Accepts(acc, inv, q, w) <==> q in acc
    decreases |w|
  {
    if |w| != 0 {
      var a := w[0];
      assert HasSucc(inv, a, q);
      SuccInUniverse(acc, inv, a, q);
      assert IsWord(sigma, w[1..]);
      AcceptsHomogeneous(acc, sigma, inv, Succ(inv, a, q), w[1..]);
    }
  }

  /**
   * In a complete DFA whose states all accept, or all reject, the single
   * block of all states is stable and is the one Myhill–Nerode class.
   */
  lemma HomogeneousClasses<S(!new), A(!new)>(acc: set<S>, sigma: set<A>, inv: map<(A, S), set<S>>)
    requires IsCompleteDfa(acc, sigma, inv)
    requires Universe(acc, inv) <= acc || Universe(acc, inv) !! acc
    ensures IsStable({Universe(acc, inv)}, inv, sigma)
    ensures MyhillNerodeClasses(acc, sigma, inv, {Universe(acc, inv)})
  {
    var Q := Universe(acc, inv);
    UniverseStable(acc, sigma, inv, {Q});
    forall q | q in Q
      ensures Q == EquivalenceClass(acc, sigma, inv, q)
    {
      forall r | r in Q
        ensures Equivalent(acc, sigma, inv, q, r)
      {
        forall w | IsWord(sigma, w)
          ensures Accepts(acc, inv, q, w) <==> Accepts(acc, inv, r, w)
        {
          AcceptsHomogeneous(acc, sigma, inv, q, w);
          AcceptsHomogeneous(acc, sigma, inv, r, w);
        }
      }
    }
  }
}
