/**
 * Hopcroft's minimiser: the loops of `hopcroft_minimize`, each proved
 * against the invariant of the Refinement module.
 *
 * `hopcroft_minimize` keeps its partition, block index and worklist in
 * local variables of one function; here the inner loops are helper methods
 * that take the current values and return the new ones.  Wherever the
 * Python code pops from a set or iterates over one, the model picks an arbitrary
 * element, so every proved property holds for every iteration order.
 */
module Hopcroft {
  import opened Collector
  import opened Partitions
  import opened Automaton
  import opened Refinement

  /** The members of `X` grouped by the block `blockOf` assigns them (members without a block are dropped). */
  ghost function Group<S>(blockOf: map<S, set<S>>, X: set<S>): map<set<S>, set<S>>
  {
    map B | B in BlocksMet(blockOf, X) :: Share(blockOf, X, B)
  }

  /** The blocks `blockOf` assigns to members of `X`. */
  ghost function BlocksMet<S>(blockOf: map<S, set<S>>, X: set<S>): set<set<S>>
  {
    set x | x in X && x in blockOf :: blockOf[x]
  }

  /** The members of `X` that `blockOf` assigns to `B`. */
  ghost function Share<S>(blockOf: map<S, set<S>>, X: set<S>, B: set<S>): set<S>
  {
    set x | x in X && x in blockOf && blockOf[x] == B
  }

  /** The predecessors of `X + {t}` add those of `t` to those of `X`. */
  lemma PreAdd<S(!new), A(!new)>(inv: map<(A, S), set<S>>, a: A, X: set<S>, t: S)
    ensures Pre(inv, a, X + {t}) == Pre(inv, a, X) + Preds(inv, a, t)
  {
    forall q | q in Pre(inv, a, X + {t})
      ensures q in Pre(inv, a, X) + Preds(inv, a, t)
    {
      var t' := PreElim(inv, a, X + {t}, q);
      if t' != t {
        PreIntro(inv, a, X, t', q);
      }
    }
    forall q | q in Preds(inv, a, t)
      ensures q in Pre(inv, a, X + {t})
    {
      PreIntro(inv, a, X + {t}, t, q);
    }
    forall q | q in Pre(inv, a, X)
      ensures q in Pre(inv, a, X + {t})
    {
      var t' := PreElim(inv, a, X, q);
      PreIntro(inv, a, X + {t}, t', q);
    }
  }

  /** Adding one member to `X` adds it to the group of its block. */
  lemma GroupAdd<S>(blockOf: map<S, set<S>>, X: set<S>, q: S)
    requires q in blockOf
    ensures Group(blockOf, X + {q}) ==
      Group(blockOf, X)[blockOf[q] := (if blockOf[q] in Group(blockOf, X) then Group(blockOf, X)[blockOf[q]] else {}) + {q}]
  {
    var g, g' := Group(blockOf, X), Group(blockOf, X + {q});
    var B := blockOf[q];
    var h := g[B := (if B in g then g[B] else {}) + {q}];
    assert g'.Keys == h.Keys;
    forall D | D in h
      ensures g'[D] == h[D]
    {
    }
  }

  /** Adding a member without a block changes no group. */
  lemma GroupSkip<S>(blockOf: map<S, set<S>>, X: set<S>, q: S)
    requires q !in blockOf
    ensures Group(blockOf, X + {q}) == Group(blockOf, X)
  {
    assert BlocksMet(blockOf, X + {q}) == BlocksMet(blockOf, X);
    forall B
      ensures Share(blockOf, X + {q}, B) == Share(blockOf, X, B)
    {
    }
  }

  /**
   * Over an indexed partition, the groups of `X` are keyed by exactly the
   * blocks that meet `X`, and each group is its block's share of `X`.
   */
  lemma GroupIndexed<S>(blockOf: map<S, set<S>>, P: set<set<S>>, Q: set<S>, X: set<S>)
    requires Indexed(blockOf, P, Q)
    ensures forall B :: B in Group(blockOf, X) <==> B in P && !(B !! X)
    ensures forall B :: B in Group(blockOf, X) ==> Group(blockOf, X)[B] == B * X
  {
    var g := Group(blockOf, X);
    forall B | B in P && !(B !! X)
      ensures B in g
    {
      var x :| x in B && x in X;
      assert blockOf[x] == B;
    }
    forall B | B in g
      ensures B in P && !(B !! X) && g[B] == B * X
    {
      var x :| x in X && x in blockOf && blockOf[x] == B;
      assert x in B;
    }
  }

  /**
   * Under the invariant every predecessor the grouping loop looks up has a
   * block, so the branch that skips a state without one (line 58 of
   * solution/main.py) is never taken.
   */
  lemma PredecessorsHaveBlocks<S(!new), A(!new)>(
    acc: set<S>, sigma: set<A>, inv: map<(A, S), set<S>>, Q: set<S>,
    P: set<set<S>>, blockOf: map<S, set<S>>, W: set<set<S>>, splitter: set<S>, done: set<A>, a: A, t: S)
    requires Inv(acc, sigma, inv, Q, P, blockOf, W, splitter, done)
    ensures forall q :: q in Preds(inv, a, t) ==> q in blockOf && q in blockOf[q] && blockOf[q] in P
  {
    PredsInUniverse(acc, inv, a, t);
  }

  /**
   * Queues the parts of a split block (lines 81-87 of solution/main.py): both
   * parts replace the block when it is still queued, otherwise the smaller
   * part is added (the first part on a tie).  The specification is the
   * ghost function `Refinement.Requeued`; what the update keeps and changes
   * is proved about that function (`Refinement.RequeuedAt`,
   * `Refinement.SplitQueue`) and, across a whole pass, by `Handled`.
   */
  method Requeue<S(==)>(W0: set<set<S>>, Y: set<S>, part1: set<S>, part2: set<S>) returns (W: set<set<S>>)
    ensures W == Requeued(W0, Y, part1, part2)
  {
    if Y in W0 {
      W := W0 - {Y} + {part1, part2};
    } else if |part1| <= |part2| {
      W := W0 + {part1};
    } else {
      W := W0 + {part2};
    }
  }

  /** Points every state of `part` at `part` in the block index (lines 76-79 of solution/main.py, one loop). */
  method Retarget<S(==)>(blockOf: map<S, set<S>>, part: set<S>) returns (m: map<S, set<S>>)
    ensures m == Retargeted(blockOf, part)
  {
    m := blockOf;
    var todo := part;
    while todo != {}
      invariant todo <= part
      invariant m.Keys == blockOf.Keys + (part - todo)
      invariant forall x :: x in m ==> m[x] == if x in part - todo then part else blockOf[x]
      decreases todo
    {
      var s :| s in todo;
      m := m[s := part];
      todo := todo - {s};
    }
    assert m.Keys == Retargeted(blockOf, part).Keys;
  }

  /** Builds the block index of a partition by pointing each block's states at it. */
  method IndexBlocks<S(==)>(P: set<set<S>>, ghost Q: set<S>) returns (blockOf: map<S, set<S>>)
    requires IsPartition(P, Q)
    ensures Indexed(blockOf, P, Q)
  {
    blockOf := map[];
    var todo := P;
    while todo != {}
      invariant todo <= P
      invariant forall B, x :: B in P - todo && x in B ==> x in blockOf && blockOf[x] == B
      invariant forall x :: x in blockOf ==> blockOf[x] in P - todo && x in blockOf[x]
      decreases todo
    {
      var block :| block in todo;
      ghost var old_blockOf := blockOf;
      blockOf := Retarget(blockOf, block);
      forall B, x | B in P - (todo - {block}) && x in B
        ensures x in blockOf && blockOf[x] == B
      {
        RetargetedAt(old_blockOf, block, x);
        if B != block {
          assert B !! block;
        }
      }
      forall x | x in blockOf
        ensures blockOf[x] in P - (todo - {block}) && x in blockOf[x]
      {
        RetargetedAt(old_blockOf, block, x);
      }
      todo := todo - {block};
    }
    forall x | x in Q
      ensures x in blockOf
    {
      assert Covered(P, x);
    }
    IndexedIntro(blockOf, P, Q);
  }

  /**
   * Collects the `a`-predecessors of the splitter, grouped by the block each
   * one is in (lines 51-59 of solution/main.py).
   */
  method GroupPredecessors<S(==,!new), A(==,!new)>(inv: map<(A, S), set<S>>, a: A, splitter: set<S>, blockOf: map<S, set<S>>)
    returns (affected: map<set<S>, set<S>>)
    ensures affected == Group(blockOf, Pre(inv, a, splitter))
  {
    affected := map[];
    ghost var seen: set<S> := {};
    var targets := splitter;
    while targets != {}
      invariant targets <= splitter
      invariant seen == Pre(inv, a, splitter - targets)
      invariant affected == Group(blockOf, seen)
      decreases targets
    {
      var tgt :| tgt in targets;
      var preds := Preds(inv, a, tgt);
      if preds != {} {
        var rest := preds;
        assert seen + (preds - rest) == seen;
        while rest != {}
          invariant rest <= preds
          invariant affected == Group(blockOf, seen + (preds - rest))
          decreases rest
        {
          var q :| q in rest;
          assert seen + (preds - (rest - {q})) == seen + (preds - rest) + {q};
          if q in blockOf {
            var blk := blockOf[q];
            GroupAdd(blockOf, seen + (preds - rest), q);
            affected := affected[blk := (if blk in affected then affected[blk] else {}) + {q}];
          } else {
            GroupSkip(blockOf, seen + (preds - rest), q);
          }
          rest := rest - {q};
        }
        assert seen + (preds - rest) == seen + preds;
      } else {
        assert seen + preds == seen;
      }
      PreAdd(inv, a, splitter - targets, tgt);
      assert splitter - (targets - {tgt}) == (splitter - targets) + {tgt};
      seen := seen + preds;
      targets := targets - {tgt};
    }
    assert splitter - targets == splitter;
  }

  /**
   * The blocks still to visit are blocks of `P` with their (non-empty) share
   * of `pre` recorded in `affected`; every other block lies wholly inside or
   * wholly outside `pre`.
   */
  ghost predicate Pending<S>(P: set<set<S>>, pre: set<S>, affected: map<set<S>, set<S>>, todo: set<set<S>>)
  {
    && {} !in affected.Values
    && todo <= P
    && (forall Y :: Y in todo ==> Y in affected && affected[Y] == Y * pre)
    && (forall B :: B in P && B !in todo ==> B <= pre || B !! pre)
  }

  /** Before the loop, every block meeting `pre` is pending. */
  lemma PendingInit<S>(blockOf: map<S, set<S>>, P: set<set<S>>, Q: set<S>, pre: set<S>)
    requires Indexed(blockOf, P, Q)
    ensures Pending(P, pre, Group(blockOf, pre), Group(blockOf, pre).Keys)
  {
    var g := Group(blockOf, pre);
    GroupIndexed(blockOf, P, Q, pre);
    forall B | B in g
      ensures g[B] != {}
    {
      var x :| x in B && x in pre;
      assert x in g[B];
    }
  }

  /** Replacing a pending block by its share of `pre` and the rest keeps the others pending. */
  lemma PendingSplit<S>(
    blockOf: map<S, set<S>>, P: set<set<S>>, Q: set<S>, pre: set<S>,
    affected: map<set<S>, set<S>>, todo: set<set<S>>, Y: set<S>)
    requires Indexed(blockOf, P, Q) && Pending(P, pre, affected, todo)
    requires Y in todo && affected[Y] != Y
    ensures Y in P && affected[Y] <= Y && affected[Y] != {}
    ensures Pending(SplitOff(P, Y, affected[Y]), pre, affected, todo - {Y})
  {
    var O := affected[Y];
    assert O in affected.Values;
    SplitParts(blockOf, P, Q, Y, O);
    assert Y - O !! pre;
  }

  /**
   * The state of the loop over the affected blocks for symbol `a`: the
   * invariant of the refinement holds, and the blocks still to visit are
   * pending against the `a`-predecessors of the splitter.
   */
  ghost predicate SplitLoop<S(!new), A(!new)>(
    acc: set<S>, sigma: set<A>, inv: map<(A, S), set<S>>, Q: set<S>,
    P: set<set<S>>, blockOf: map<S, set<S>>, W: set<set<S>>, splitter: set<S>, done: set<A>,
    a: A, affected: map<set<S>, set<S>>, todo: set<set<S>>)
  {
    && Inv(acc, sigma, inv, Q, P, blockOf, W, splitter, done)
    && a in sigma
    && Pending(P, Pre(inv, a, splitter), affected, todo)
  }

  lemma SplitLoopInit<S(!new), A(!new)>(
    acc: set<S>, sigma: set<A>, inv: map<(A, S), set<S>>, Q: set<S>,
    P: set<set<S>>, blockOf: map<S, set<S>>, W: set<set<S>>, splitter: set<S>, done: set<A>,
    a: A, affected: map<set<S>, set<S>>)
    requires Inv(acc, sigma, inv, Q, P, blockOf, W, splitter, done)
    requires a in sigma && affected == Group(blockOf, Pre(inv, a, splitter))
    ensures SplitLoop(acc, sigma, inv, Q, P, blockOf, W, splitter, done, a, affected, affected.Keys)
  {
    PendingInit(blockOf, P, Q, Pre(inv, a, splitter));
  }

  /** A block wholly inside the predecessors is left as it is. */
  lemma SplitLoopKeep<S(!new), A(!new)>(
    acc: set<S>, sigma: set<A>, inv: map<(A, S), set<S>>, Q: set<S>,
    P: set<set<S>>, blockOf: map<S, set<S>>, W: set<set<S>>, splitter: set<S>, done: set<A>,
    a: A, affected: map<set<S>, set<S>>, todo: set<set<S>>, Y: set<S>)
    requires SplitLoop(acc, sigma, inv, Q, P, blockOf, W, splitter, done, a, affected, todo)
    requires Y in todo && |affected[Y]| == |Y|
    ensures SplitLoop(acc, sigma, inv, Q, P, blockOf, W, splitter, done, a, affected, todo - {Y})
    ensures Y in affected && affected[Y] == Y
  {
    SameSizeSubset(affected[Y], Y);
  }

  /** A block partly inside the predecessors is split, and the loop state is kept. */
  lemma SplitLoopSplit<S(!new), A(!new)>(
    acc: set<S>, sigma: set<A>, inv: map<(A, S), set<S>>, Q: set<S>,
    P: set<set<S>>, blockOf: map<S, set<S>>, W: set<set<S>>, splitter: set<S>, done: set<A>,
    a: A, affected: map<set<S>, set<S>>, todo: set<set<S>>, Y: set<S>)
    requires SplitLoop(acc, sigma, inv, Q, P, blockOf, W, splitter, done, a, affected, todo)
    requires Y in todo && |affected[Y]| != |Y|
    ensures SplitLoop(acc, sigma, inv, Q, SplitOff(P, Y, affected[Y]),
                      Retargeted(Retargeted(blockOf, affected[Y]), Y - affected[Y]),
                      Requeued(W, Y, affected[Y], Y - affected[Y]), splitter, done, a, affected, todo - {Y})
    ensures |SplitOff(P, Y, affected[Y])| == |P| + 1
  {
    PendingSplit(blockOf, P, Q, Pre(inv, a, splitter), affected, todo, Y);
    SplitInv(acc, sigma, inv, Q, P, blockOf, W, splitter, done, a, Y, affected[Y]);
  }

  /** Once every affected block is visited, the partition is stable against the splitter on `a`. */
  lemma SplitLoopDone<S(!new), A(!new)>(
    acc: set<S>, sigma: set<A>, inv: map<(A, S), set<S>>, Q: set<S>,
    P: set<set<S>>, blockOf: map<S, set<S>>, W: set<set<S>>, splitter: set<S>, done: set<A>,
    a: A, affected: map<set<S>, set<S>>)
    requires SplitLoop(acc, sigma, inv, Q, P, blockOf, W, splitter, done, a, affected, {})
    ensures StableOn(P, inv, a, splitter)
    ensures Inv(acc, sigma, inv, Q, P, blockOf, W, splitter, done + {a})
  {
  }

  /** No block meets the predecessors: the partition is already stable against the splitter on `a`. */
  lemma NothingAffected<S(!new), A(!new)>(
    acc: set<S>, sigma: set<A>, inv: map<(A, S), set<S>>, Q: set<S>,
    P: set<set<S>>, blockOf: map<S, set<S>>, W: set<set<S>>, splitter: set<S>, done: set<A>, a: A)
    requires Inv(acc, sigma, inv, Q, P, blockOf, W, splitter, done)
    requires a in sigma && Group(blockOf, Pre(inv, a, splitter)) == map[]
    ensures StableOn(P, inv, a, splitter)
    ensures Inv(acc, sigma, inv, Q, P, blockOf, W, splitter, done + {a})
  {
    SplitLoopInit(acc, sigma, inv, Q, P, blockOf, W, splitter, done, a, map[]);
    SplitLoopDone(acc, sigma, inv, Q, P, blockOf, W, splitter, done, a, map[]);
  }

  /** `Y` is an affected block already visited and found to be cut: its share is not all of it. */
  ghost predicate Cut<S>(affected: map<set<S>, set<S>>, seen: set<set<S>>, Y: set<S>)
  {
    Y in seen && Y in affected && affected[Y] != Y
  }

  /** `B` is one of the two parts of a cut block. */
  ghost predicate PartOfCut<S>(affected: map<set<S>, set<S>>, seen: set<set<S>>, B: set<S>)
  {
    exists Y :: Y in seen && Cut(affected, seen, Y) && (B == affected[Y] || B == Y - affected[Y])
  }

  /**
   * Queuing of the parts `part1`, `part2` of a cut block `Y`: both when `Y`
   * was queued, otherwise only the smaller one, `part1` on a tie.
   */
  ghost predicate QueuedParts<S>(W0: set<set<S>>, W: set<set<S>>, Y: set<S>, part1: set<S>, part2: set<S>)
  {
    if Y in W0 then part1 in W && part2 in W
    else if |part1| <= |part2| then part1 in W && part2 !in W
    else part1 !in W && part2 in W
  }

  /**
   * `P` and `W` are `P0` and `W0` after the visited blocks `seen` were
   * handled: a block that is not cut stays, with its worklist status; a cut
   * block is replaced by its share and the rest, queued as `QueuedParts`
   * says; and every block not in `P0` is such a part.
   */
  ghost predicate Handled<S>(
    P0: set<set<S>>, W0: set<set<S>>, affected: map<set<S>, set<S>>, seen: set<set<S>>,
    P: set<set<S>>, W: set<set<S>>)
  {
    && (forall B :: B in P0 && !Cut(affected, seen, B) ==> B in P && (B in W <==> B in W0))
    && (forall Y :: Y in seen && Cut(affected, seen, Y) ==>
          && Y !in P && affected[Y] in P && Y - affected[Y] in P && Y !in W
          && QueuedParts(W0, W, Y, affected[Y], Y - affected[Y]))
    && (forall B :: B in P && B !in P0 ==> PartOfCut(affected, seen, B))
  }

  /** Every key of `g` is a block of `P0` and its value a non-empty part of it. */
  ghost predicate Shares<S>(P0: set<set<S>>, g: map<set<S>, set<S>>)
  {
    && {} !in g.Values
    && (forall Z :: Z in g ==> Z in P0 && g[Z] <= Z)
  }

  /** The parts of a cut block of `P0` are non-empty and different, and are not blocks of `P0`. */
  lemma CutParts<S>(P0: set<set<S>>, Q: set<S>, g: map<set<S>, set<S>>, Y: set<S>)
    requires Blocks(P0, Q) && Shares(P0, g)
    requires Y in g && g[Y] != Y
    ensures Y in P0 && g[Y] <= Y && g[Y] != {} && Y - g[Y] != {} && g[Y] != Y - g[Y]
    ensures g[Y] !in P0 && Y - g[Y] !in P0
  {
    assert g[Y] in g.Values;
    assert g[Y] != {};
    NoRest(g[Y], Y);
    var x :| x in g[Y];
    var y :| y in Y - g[Y];
    assert x in Y && y in Y;
  }

  /** A non-empty part of one key of `g` is neither another key nor one of its parts. */
  lemma CutApart<S>(P0: set<set<S>>, Q: set<S>, g: map<set<S>, set<S>>, Y: set<S>, Y': set<S>, B: set<S>)
    requires Blocks(P0, Q) && Shares(P0, g)
    requires Y in g && Y' in g && Y != Y'
    requires B != {} && B <= Y'
    ensures B != Y && B != g[Y] && B != Y - g[Y]
  {
    var x :| x in B;
    assert x in Y' && Y !! Y';
  }

  lemma HandledInit<S>(P0: set<set<S>>, W0: set<set<S>>, affected: map<set<S>, set<S>>)
    ensures Handled(P0, W0, affected, {}, P0, W0)
  {
  }

  /** Visiting a block that is wholly inside the predecessors changes nothing. */
  lemma HandledKeep<S>(
    P0: set<set<S>>, W0: set<set<S>>, affected: map<set<S>, set<S>>, todo: set<set<S>>,
    P: set<set<S>>, W: set<set<S>>, Y: set<S>)
    requires Handled(P0, W0, affected, affected.Keys - todo, P, W)
    requires Y in todo && Y in affected && affected[Y] == Y
    ensures Handled(P0, W0, affected, affected.Keys - (todo - {Y}), P, W)
  {
    var seen, seen' := affected.Keys - todo, affected.Keys - (todo - {Y});
    forall B | B in P && B !in P0
      ensures PartOfCut(affected, seen', B)
    {
      var Z :| Z in seen && Cut(affected, seen, Z) && (B == affected[Z] || B == Z - affected[Z]);
      assert Z in seen' && Cut(affected, seen', Z);
    }
  }

  /** Visiting a block that is cut replaces it by its two parts and queues them. */
  lemma HandledSplit<S>(
    P0: set<set<S>>, W0: set<set<S>>, Q: set<S>, g: map<set<S>, set<S>>,
    blockOf: map<S, set<S>>, P: set<set<S>>, W: set<set<S>>, todo: set<set<S>>, Y: set<S>)
    requires Blocks(P0, Q) && Shares(P0, g)
    requires Indexed(blockOf, P, Q) && W <= P && todo <= P
    requires Handled(P0, W0, g, g.Keys - todo, P, W)
    requires Y in todo && Y in g && g[Y] != Y
    ensures Handled(P0, W0, g, g.Keys - (todo - {Y}), SplitOff(P, Y, g[Y]), Requeued(W, Y, g[Y], Y - g[Y]))
  {
    CutParts(P0, Q, g, Y);
    SplitParts(blockOf, P, Q, Y, g[Y]);
    HandledSplitKept(P0, W0, g, P, W, todo, Y);
    HandledSplitCut(P0, W0, Q, g, P, W, todo, Y);
    HandledSplitNew(P0, W0, g, P, W, todo, Y);
  }

  /** Blocks of `P0` other than the cut one keep their place and worklist status. */
  lemma HandledSplitKept<S>(
    P0: set<set<S>>, W0: set<set<S>>, g: map<set<S>, set<S>>,
    P: set<set<S>>, W: set<set<S>>, todo: set<set<S>>, Y: set<S>)
    requires Handled(P0, W0, g, g.Keys - todo, P, W)
    requires Y in todo && Y in g && g[Y] != Y
    requires g[Y] != Y - g[Y] && g[Y] !in P0 && Y - g[Y] !in P0
    ensures forall B :: B in P0 && !Cut(g, g.Keys - (todo - {Y}), B) ==>
              B in SplitOff(P, Y, g[Y]) && (B in Requeued(W, Y, g[Y], Y - g[Y]) <==> B in W0)
  {
    var seen' := g.Keys - (todo - {Y});
    forall B | B in P0 && !Cut(g, seen', B)
      ensures B in SplitOff(P, Y, g[Y]) && (B in Requeued(W, Y, g[Y], Y - g[Y]) <==> B in W0)
    {
      assert !Cut(g, g.Keys - todo, B);
      RequeuedAt(W, Y, g[Y], B);
    }
  }

  /** Each cut block, the new one included, is replaced by its parts, queued as `QueuedParts` says. */
  lemma HandledSplitCut<S>(
    P0: set<set<S>>, W0: set<set<S>>, Q: set<S>, g: map<set<S>, set<S>>,
    P: set<set<S>>, W: set<set<S>>, todo: set<set<S>>, Y: set<S>)
    requires Blocks(P0, Q) && Shares(P0, g) && W <= P
    requires Handled(P0, W0, g, g.Keys - todo, P, W)
    requires Y in todo && Y in P && Y in g && g[Y] != Y
    requires g[Y] != Y - g[Y] && g[Y] !in P - {Y} && Y - g[Y] !in P - {Y} && g[Y] != Y && Y - g[Y] != Y
    ensures forall Z :: Z in g.Keys - (todo - {Y}) && Cut(g, g.Keys - (todo - {Y}), Z) ==>
              && Z !in SplitOff(P, Y, g[Y]) && g[Z] in SplitOff(P, Y, g[Y]) && Z - g[Z] in SplitOff(P, Y, g[Y])
              && Z !in Requeued(W, Y, g[Y], Y - g[Y])
              && QueuedParts(W0, Requeued(W, Y, g[Y], Y - g[Y]), Z, g[Z], Z - g[Z])
  {
    var seen, seen' := g.Keys - todo, g.Keys - (todo - {Y});
    var O := g[Y];
    var P', W' := SplitOff(P, Y, O), Requeued(W, Y, O, Y - O);
    forall Z | Z in seen' && Cut(g, seen', Z)
      ensures Z !in P' && g[Z] in P' && Z - g[Z] in P' && Z !in W'
      ensures QueuedParts(W0, W', Z, g[Z], Z - g[Z])
    {
      if Z == Y {
        assert !Cut(g, seen, Y) && Y in P0;
        RequeuedAt(W, Y, O, Y);
        assert Y - O !in W && O !in W;
      } else {
        assert Z in seen && Cut(g, seen, Z);
        CutParts(P0, Q, g, Z);
        CutApart(P0, Q, g, Z, Y, O);
        CutApart(P0, Q, g, Z, Y, Y - O);
        CutApart(P0, Q, g, Y, Z, g[Z]);
        CutApart(P0, Q, g, Y, Z, Z - g[Z]);
        RequeuedAt(W, Y, O, Z);
        RequeuedAt(W, Y, O, g[Z]);
        RequeuedAt(W, Y, O, Z - g[Z]);
      }
    }
  }

  /** Every block not in `P0` is still a part of a cut block. */
  lemma HandledSplitNew<S>(
    P0: set<set<S>>, W0: set<set<S>>, g: map<set<S>, set<S>>,
    P: set<set<S>>, W: set<set<S>>, todo: set<set<S>>, Y: set<S>)
    requires Handled(P0, W0, g, g.Keys - todo, P, W)
    requires Y in todo && Y in g && g[Y] != Y
    ensures forall B :: B in SplitOff(P, Y, g[Y]) && B !in P0 ==> PartOfCut(g, g.Keys - (todo - {Y}), B)
  {
    var seen, seen' := g.Keys - todo, g.Keys - (todo - {Y});
    forall B | B in SplitOff(P, Y, g[Y]) && B !in P0
      ensures PartOfCut(g, seen', B)
    {
      if B == g[Y] || B == Y - g[Y] {
        assert Y in seen' && Cut(g, seen', Y);
      } else {
        var Z :| Z in seen && Cut(g, seen, Z) && (B == g[Z] || B == Z - g[Z]);
        assert Z in seen' && Cut(g, seen', Z);
      }
    }
  }

  /** `HandledSplit` in the state of the loop over the affected blocks. */
  lemma HandledStep<S(!new), A(!new)>(
    acc: set<S>, sigma: set<A>, inv: map<(A, S), set<S>>, Q: set<S>,
    blockOf0: map<S, set<S>>, P0: set<set<S>>, W0: set<set<S>>,
    P: set<set<S>>, blockOf: map<S, set<S>>, W: set<set<S>>, splitter: set<S>, done: set<A>,
    a: A, affected: map<set<S>, set<S>>, todo: set<set<S>>, Y: set<S>)
    requires Inv(acc, sigma, inv, Q, P0, blockOf0, W0, splitter, done)
    requires affected == Group(blockOf0, Pre(inv, a, splitter))
    requires SplitLoop(acc, sigma, inv, Q, P, blockOf, W, splitter, done, a, affected, todo)
    requires Handled(P0, W0, affected, affected.Keys - todo, P, W)
    requires Y in todo && |affected[Y]| != |Y|
    ensures Handled(P0, W0, affected, affected.Keys - (todo - {Y}),
                    SplitOff(P, Y, affected[Y]), Requeued(W, Y, affected[Y], Y - affected[Y]))
  {
    IndexedIsPartition(blockOf0, P0, Q);
    GroupIndexed(blockOf0, P0, Q, Pre(inv, a, splitter));
    HandledSplit(P0, W0, Q, affected, blockOf, P, W, todo, Y);
  }

  /** Once all affected blocks are handled, `P` refines `P0`. */
  lemma HandledRefines<S>(P0: set<set<S>>, W0: set<set<S>>, g: map<set<S>, set<S>>, P: set<set<S>>, W: set<set<S>>)
    requires Shares(P0, g)
    requires Handled(P0, W0, g, g.Keys, P, W)
    ensures Refines(P, P0)
  {
    forall B | B in P
      ensures Inside(B, P0)
    {
      if B in P0 {
        assert B <= B;
      } else {
        var Z :| Z in g.Keys && Cut(g, g.Keys, Z) && (B == g[Z] || B == Z - g[Z]);
        assert Z in P0 && B <= Z;
      }
    }
  }

  /** `HandledRefines` for the grouping of the predecessors. */
  lemma HandledDone<S>(blockOf0: map<S, set<S>>, P0: set<set<S>>, W0: set<set<S>>, Q: set<S>, pre: set<S>,
                       P: set<set<S>>, W: set<set<S>>)
    requires Indexed(blockOf0, P0, Q)
    requires Handled(P0, W0, Group(blockOf0, pre), Group(blockOf0, pre).Keys, P, W)
    ensures Refines(P, P0)
  {
    PendingInit(blockOf0, P0, Q, pre);
    GroupIndexed(blockOf0, P0, Q, pre);
    HandledRefines(P0, W0, Group(blockOf0, pre), P, W);
  }

  /**
   * What the passes from `P0`, `W0` to `P`, `W` did to the worklist (lines
   * 81-87 of solution/main.py): a block of `P0` still in `P` kept its
   * status; every block inside a queued block of `P0` is queued; and inside
   * an unqueued block of `P0` at most one block is not queued.
   */
  ghost predicate StatusKept<S>(P0: set<set<S>>, W0: set<set<S>>, P: set<set<S>>, W: set<set<S>>)
  {
    && (forall B :: B in P && B in P0 ==> (B in W <==> B in W0))
    && (forall B, Y :: B in P && Y in W0 && B <= Y ==> B in W)
    && (forall Y, B1, B2 :: Y in P0 && Y !in W0 && B1 in P && B2 in P && B1 <= Y && B2 <= Y && B1 !in W && B2 !in W ==> B1 == B2)
  }

  /** A non-empty set inside two blocks of a partition makes them one block. */
  lemma SameBlock<S>(P: set<set<S>>, Q: set<S>, B: set<S>, C1: set<S>, C2: set<S>)
    requires Blocks(P, Q) && C1 in P && C2 in P
    requires B != {} && B <= C1 && B <= C2
    ensures C1 == C2
  {
    var x :| x in B;
    assert x in C1 && x in C2;
  }

  lemma StatusKeptSelf<S>(P0: set<set<S>>, Q: set<S>, W0: set<set<S>>)
    requires Blocks(P0, Q) && W0 <= P0
    ensures StatusKept(P0, W0, P0, W0)
  {
    forall B, Y | B in P0 && Y in W0 && B <= Y
      ensures B in W0
    {
      SameBlock(P0, Q, B, B, Y);
    }
    forall Y, B1, B2 | Y in P0 && Y !in W0 && B1 in P0 && B2 in P0 && B1 <= Y && B2 <= Y && B1 !in W0 && B2 !in W0
      ensures B1 == B2
    {
      SameBlock(P0, Q, B1, B1, Y);
      SameBlock(P0, Q, B2, B2, Y);
    }
  }

  /** A block after the handling of `g` is either an uncut block of `P0` or a part of a cut one. */
  lemma HandledOrigin<S>(P0: set<set<S>>, Q: set<S>, W0: set<set<S>>, g: map<set<S>, set<S>>,
                         P: set<set<S>>, W: set<set<S>>, B: set<S>)
    returns (Z: set<S>)
    requires Blocks(P0, Q) && Shares(P0, g)
    requires Handled(P0, W0, g, g.Keys, P, W)
    requires B in P
    ensures Z in P0 && B <= Z && B != {}
    ensures Z == B ==> B in P0 && !Cut(g, g.Keys, B) && (B in W <==> B in W0)
    ensures Z != B ==> Cut(g, g.Keys, Z) && (B == g[Z] || B == Z - g[Z]) && QueuedParts(W0, W, Z, g[Z], Z - g[Z])
  {
    if B in P0 {
      Z := B;
      assert B != {};
    } else {
      Z :| Z in g.Keys && Cut(g, g.Keys, Z) && (B == g[Z] || B == Z - g[Z]);
      CutParts(P0, Q, g, Z);
    }
  }

  /** Handling the affected blocks for one symbol changes worklist statuses only as `StatusKept` allows. */
  lemma HandledStatus<S>(P0: set<set<S>>, Q: set<S>, W0: set<set<S>>, g: map<set<S>, set<S>>,
                         P: set<set<S>>, W: set<set<S>>)
    requires Blocks(P0, Q) && Shares(P0, g) && W0 <= P0
    requires Handled(P0, W0, g, g.Keys, P, W)
    ensures StatusKept(P0, W0, P, W)
  {
    forall B, Y | B in P && Y in W0 && B <= Y
      ensures B in W
    {
      var Z := HandledOrigin(P0, Q, W0, g, P, W, B);
      SameBlock(P0, Q, B, Y, Z);
    }
    forall Y, B1, B2 | Y in P0 && Y !in W0 && B1 in P && B2 in P && B1 <= Y && B2 <= Y && B1 !in W && B2 !in W
      ensures B1 == B2
    {
      var Z1 := HandledOrigin(P0, Q, W0, g, P, W, B1);
      var Z2 := HandledOrigin(P0, Q, W0, g, P, W, B2);
      SameBlock(P0, Q, B1, Y, Z1);
      SameBlock(P0, Q, B2, Y, Z2);
    }
    forall B | B in P && B in P0
      ensures B in W <==> B in W0
    {
      var Z := HandledOrigin(P0, Q, W0, g, P, W, B);
      if Z != B {
        SameBlock(P0, Q, B, B, Z);
      }
    }
  }

  /** `HandledStatus` for the grouping of the predecessors. */
  lemma HandledStatusDone<S>(blockOf0: map<S, set<S>>, P0: set<set<S>>, W0: set<set<S>>, Q: set<S>, pre: set<S>,
                             P: set<set<S>>, W: set<set<S>>)
    requires Indexed(blockOf0, P0, Q) && W0 <= P0
    requires Handled(P0, W0, Group(blockOf0, pre), Group(blockOf0, pre).Keys, P, W)
    ensures StatusKept(P0, W0, P, W)
  {
    PendingInit(blockOf0, P0, Q, pre);
    GroupIndexed(blockOf0, P0, Q, pre);
    IndexedIsPartition(blockOf0, P0, Q);
    HandledStatus(P0, Q, W0, Group(blockOf0, pre), P, W);
  }

  /** Two passes that each keep statuses as `StatusKept` says keep them so together. */
  lemma StatusKeptTrans<S>(Q: set<S>, P0: set<set<S>>, W0: set<set<S>>, P1: set<set<S>>, W1: set<set<S>>,
                           P2: set<set<S>>, W2: set<set<S>>)
    requires Blocks(P0, Q) && Blocks(P2, Q) && W0 <= P0
    requires Refines(P1, P0) && Refines(P2, P1)
    requires StatusKept(P0, W0, P1, W1) && StatusKept(P1, W1, P2, W2)
    ensures StatusKept(P0, W0, P2, W2)
  {
    forall B | B in P2 && B in P0
      ensures B in W2 <==> B in W0
    {
      var C1, C0 := Enclosing(Q, P0, P1, P2, B);
      SameBlock(P0, Q, B, B, C0);
      assert C1 == B;
    }
    forall B, Y | B in P2 && Y in W0 && B <= Y
      ensures B in W2
    {
      var C1, C0 := Enclosing(Q, P0, P1, P2, B);
      SameBlock(P0, Q, B, Y, C0);
      assert C1 in W1;
    }
    forall Y, B1, B2 | Y in P0 && Y !in W0 && B1 in P2 && B2 in P2 && B1 <= Y && B2 <= Y && B1 !in W2 && B2 !in W2
      ensures B1 == B2
    {
      var C1, C0 := Enclosing(Q, P0, P1, P2, B1);
      var D1, D0 := Enclosing(Q, P0, P1, P2, B2);
      SameBlock(P0, Q, B1, Y, C0);
      SameBlock(P0, Q, B2, Y, D0);
      assert C1 !in W1 && D1 !in W1;
      assert C1 == D1;
    }
  }

  /** The blocks of `P1` and `P0` around a block of `P2`. */
  lemma Enclosing<S>(Q: set<S>, P0: set<set<S>>, P1: set<set<S>>, P2: set<set<S>>, B: set<S>)
    returns (C1: set<S>, C0: set<S>)
    requires Blocks(P2, Q) && Refines(P1, P0) && Refines(P2, P1) && B in P2
    ensures C1 in P1 && C0 in P0 && B != {} && B <= C1 <= C0
  {
    C1 :| C1 in P1 && B <= C1;
    C0 :| C0 in P0 && C1 <= C0;
  }

  /** The symbols of `sigma` on which `x` is a predecessor of the splitter. */
  ghost function Signature<S(!new), A(!new)>(inv: map<(A, S), set<S>>, sigma: set<A>, splitter: set<S>, x: S): set<A>
  {
    set a | a in sigma && x in Pre(inv, a, splitter)
  }

  /**
   * States that shared a block under `blockOf0` and agree on the
   * predecessors of the splitter on `sigma` still share one under `blockOf`.
   */
  ghost predicate KeptTogether<S(!new), A(!new)>(
    blockOf0: map<S, set<S>>, blockOf: map<S, set<S>>, inv: map<(A, S), set<S>>, sigma: set<A>, splitter: set<S>)
  {
    forall x, y :: x in blockOf0 && y in blockOf0 && blockOf0[x] == blockOf0[y] && Signature(inv, sigma, splitter, x) == Signature(inv, sigma, splitter, y) ==>
      x in blockOf && y in blockOf && blockOf[x] == blockOf[y]
  }

  /**
   * Handling the affected blocks separates two states of one block only when
   * one is in `pre` and the other is not.
   */
  lemma HandledTogether<S>(
    blockOf0: map<S, set<S>>, P0: set<set<S>>, W0: set<set<S>>, Q: set<S>, pre: set<S>,
    blockOf: map<S, set<S>>, P: set<set<S>>, W: set<set<S>>, x: S, y: S)
    requires Indexed(blockOf0, P0, Q) && Indexed(blockOf, P, Q)
    requires Handled(P0, W0, Group(blockOf0, pre), Group(blockOf0, pre).Keys, P, W)
    requires x in blockOf0 && y in blockOf0 && blockOf0[x] == blockOf0[y] && (x in pre <==> y in pre)
    ensures x in blockOf && y in blockOf && blockOf[x] == blockOf[y]
  {
    var g := Group(blockOf0, pre);
    GroupIndexed(blockOf0, P0, Q, pre);
    var B := blockOf0[x];
    assert x in B && y in B && B in P0;
    if Cut(g, g.Keys, B) {
      var part := if x in pre then g[B] else B - g[B];
      assert part in P && x in part && y in part;
    } else {
      assert B in P;
    }
  }

  lemma SymbolKeptTogether<S(!new), A(!new)>(
    acc: set<S>, sigma: set<A>, inv: map<(A, S), set<S>>, Q: set<S>,
    P0: set<set<S>>, blockOf0: map<S, set<S>>, W0: set<set<S>>,
    P: set<set<S>>, blockOf: map<S, set<S>>, W: set<set<S>>, splitter: set<S>, done: set<A>, sym: A)
    requires Indexed(blockOf0, P0, Q)
    requires Inv(acc, sigma, inv, Q, P, blockOf, W, splitter, done)
    requires Handled(P0, W0, Group(blockOf0, Pre(inv, sym, splitter)), Group(blockOf0, Pre(inv, sym, splitter)).Keys, P, W)
    ensures KeptTogether(blockOf0, blockOf, inv, {sym}, splitter)
  {
    forall x, y | x in blockOf0 && y in blockOf0 && blockOf0[x] == blockOf0[y] && Signature(inv, {sym}, splitter, x) == Signature(inv, {sym}, splitter, y)
      ensures x in blockOf && y in blockOf && blockOf[x] == blockOf[y]
    {
      assert sym in Signature(inv, {sym}, splitter, x) <==> sym in Signature(inv, {sym}, splitter, y);
      HandledTogether(blockOf0, P0, W0, Q, Pre(inv, sym, splitter), blockOf, P, W, x, y);
    }
  }

  /** Keeping together over all of `sigma`, then over one more symbol of it, keeps together over `sigma`. */
  lemma KeptTogetherTrans<S(!new), A(!new)>(
    blockOf0: map<S, set<S>>, blockOf1: map<S, set<S>>, blockOf2: map<S, set<S>>,
    inv: map<(A, S), set<S>>, sigma: set<A>, sym: A, splitter: set<S>)
    requires sym in sigma
    requires KeptTogether(blockOf0, blockOf1, inv, sigma, splitter)
    requires KeptTogether(blockOf1, blockOf2, inv, {sym}, splitter)
    ensures KeptTogether(blockOf0, blockOf2, inv, sigma, splitter)
  {
    forall x, y | x in blockOf0 && y in blockOf0 && blockOf0[x] == blockOf0[y] && Signature(inv, sigma, splitter, x) == Signature(inv, sigma, splitter, y)
      ensures x in blockOf2 && y in blockOf2 && blockOf2[x] == blockOf2[y]
    {
      assert sym in Signature(inv, sigma, splitter, x) <==> sym in Signature(inv, sigma, splitter, y);
      assert Signature(inv, {sym}, splitter, x) == Signature(inv, {sym}, splitter, y);
    }
  }

  /**
   * A splitter against which the partition is already stable on every
   * symbol leaves it unchanged: no affected block passes the test of lines
   * 66-67 of solution/main.py.
   */
  lemma StableSplitterKeeps<S(!new), A(!new)>(
    blockOf0: map<S, set<S>>, P0: set<set<S>>, blockOf: map<S, set<S>>, P: set<set<S>>, Q: set<S>,
    inv: map<(A, S), set<S>>, sigma: set<A>, splitter: set<S>)
    requires Indexed(blockOf0, P0, Q) && Indexed(blockOf, P, Q)
    requires Refines(P, P0) && KeptTogether(blockOf0, blockOf, inv, sigma, splitter)
    requires forall a :: a in sigma ==> StableOn(P0, inv, a, splitter)
    ensures P == P0
  {
    forall x | x in Q
      ensures blockOf[x] == blockOf0[x]
    {
      var B0, B := blockOf0[x], blockOf[x];
      forall y | y in B0
        ensures y in B
      {
        forall a | a in sigma
          ensures x in Pre(inv, a, splitter) <==> y in Pre(inv, a, splitter)
        {
          assert StableOn(P0, inv, a, splitter);
        }
        assert Signature(inv, sigma, splitter, x) == Signature(inv, sigma, splitter, y);
      }
      var C :| C in P0 && B <= C;
      assert x in C;
    }
    forall B | B in P
      ensures B in P0
    {
      assert B != {};
      var x :| x in B;
    }
    forall B0 | B0 in P0
      ensures B0 in P
    {
      assert B0 != {};
      var x :| x in B0;
    }
  }

  /**
   * Splits every affected block whose share of the predecessors is not the
   * whole block, and queues the parts (lines 64-87 of solution/main.py).
   * Afterwards `P` and `W` are exactly `P0` and `W0` with those blocks
   * handled (`Handled`), and every block lies wholly inside or wholly
   * outside the `a`-predecessors of the splitter.
   */
  method SplitAffected<S(==,!new), A(!new)>(
    ghost acc: set<S>, ghost sigma: set<A>, ghost inv: map<(A, S), set<S>>, ghost Q: set<S>,
    P0: set<set<S>>, blockOf0: map<S, set<S>>, W0: set<set<S>>,
    ghost splitter: set<S>, ghost done: set<A>, ghost a: A, affected: map<set<S>, set<S>>)
    returns (P: set<set<S>>, blockOf: map<S, set<S>>, W: set<set<S>>)
    requires Inv(acc, sigma, inv, Q, P0, blockOf0, W0, splitter, done)
    requires a in sigma && affected == Group(blockOf0, Pre(inv, a, splitter))
    ensures Inv(acc, sigma, inv, Q, P, blockOf, W, splitter, done + {a})
    ensures StableOn(P, inv, a, splitter)
    ensures Handled(P0, W0, affected, affected.Keys, P, W)
    ensures Refines(P, P0)
    ensures |P| >= |P0| && (|P| == |P0| ==> W == W0)
  {
    P, blockOf, W := P0, blockOf0, W0;
    var todo := affected.Keys;
    ghost var split := false;
    VisitInit(acc, sigma, inv, Q, P0, blockOf0, W0, splitter, done, a, affected);
    while todo != {}
      invariant Visit(acc, sigma, inv, Q, P0, blockOf0, W0, P, blockOf, W, splitter, done, a, affected, todo)
      invariant if split then |P| > |P0| else P == P0 && W == W0
      decreases todo
    {
      var Y :| Y in todo;
      var overlap := affected[Y];
      if |overlap| == |Y| {
        VisitKeep(acc, sigma, inv, Q, P0, blockOf0, W0, P, blockOf, W, splitter, done, a, affected, todo, Y);
      } else {
        VisitSplit(acc, sigma, inv, Q, P0, blockOf0, W0, P, blockOf, W, splitter, done, a, affected, todo, Y);
        split := true;
        var part1 := overlap;
        var part2 := Y - part1;
        P := P - {Y} + {part1, part2};
        blockOf := Retarget(blockOf, part1);
        blockOf := Retarget(blockOf, part2);
        W := Requeue(W, Y, part1, part2);
      }
      todo := todo - {Y};
    }
    VisitDone(acc, sigma, inv, Q, P0, blockOf0, W0, P, blockOf, W, splitter, done, a, affected);
  }

  /** The state of the loop over the affected blocks, together with what it has done to `P0` and `W0`. */
  ghost predicate Visit<S(!new), A(!new)>(
    acc: set<S>, sigma: set<A>, inv: map<(A, S), set<S>>, Q: set<S>,
    P0: set<set<S>>, blockOf0: map<S, set<S>>, W0: set<set<S>>,
    P: set<set<S>>, blockOf: map<S, set<S>>, W: set<set<S>>, splitter: set<S>, done: set<A>,
    a: A, affected: map<set<S>, set<S>>, todo: set<set<S>>)
  {
    && Inv(acc, sigma, inv, Q, P0, blockOf0, W0, splitter, done)
    && affected == Group(blockOf0, Pre(inv, a, splitter))
    && SplitLoop(acc, sigma, inv, Q, P, blockOf, W, splitter, done, a, affected, todo)
    && Handled(P0, W0, affected, affected.Keys - todo, P, W)
  }

  lemma VisitInit<S(!new), A(!new)>(
    acc: set<S>, sigma: set<A>, inv: map<(A, S), set<S>>, Q: set<S>,
    P0: set<set<S>>, blockOf0: map<S, set<S>>, W0: set<set<S>>, splitter: set<S>, done: set<A>,
    a: A, affected: map<set<S>, set<S>>)
    requires Inv(acc, sigma, inv, Q, P0, blockOf0, W0, splitter, done)
    requires a in sigma && affected == Group(blockOf0, Pre(inv, a, splitter))
    ensures Visit(acc, sigma, inv, Q, P0, blockOf0, W0, P0, blockOf0, W0, splitter, done, a, affected, affected.Keys)
  {
    SplitLoopInit(acc, sigma, inv, Q, P0, blockOf0, W0, splitter, done, a, affected);
    HandledInit(P0, W0, affected);
    assert affected.Keys - affected.Keys == {};
  }

  lemma VisitKeep<S(!new), A(!new)>(
    acc: set<S>, sigma: set<A>, inv: map<(A, S), set<S>>, Q: set<S>,
    P0: set<set<S>>, blockOf0: map<S, set<S>>, W0: set<set<S>>,
    P: set<set<S>>, blockOf: map<S, set<S>>, W: set<set<S>>, splitter: set<S>, done: set<A>,
    a: A, affected: map<set<S>, set<S>>, todo: set<set<S>>, Y: set<S>)
    requires Visit(acc, sigma, inv, Q, P0, blockOf0, W0, P, blockOf, W, splitter, done, a, affected, todo)
    requires Y in todo && |affected[Y]| == |Y|
    ensures Visit(acc, sigma, inv, Q, P0, blockOf0, W0, P, blockOf, W, splitter, done, a, affected, todo - {Y})
  {
    SplitLoopKeep(acc, sigma, inv, Q, P, blockOf, W, splitter, done, a, affected, todo, Y);
    HandledKeep(P0, W0, affected, todo, P, W, Y);
  }

  lemma VisitSplit<S(!new), A(!new)>(
    acc: set<S>, sigma: set<A>, inv: map<(A, S), set<S>>, Q: set<S>,
    P0: set<set<S>>, blockOf0: map<S, set<S>>, W0: set<set<S>>,
    P: set<set<S>>, blockOf: map<S, set<S>>, W: set<set<S>>, splitter: set<S>, done: set<A>,
    a: A, affected: map<set<S>, set<S>>, todo: set<set<S>>, Y: set<S>)
    requires Visit(acc, sigma, inv, Q, P0, blockOf0, W0, P, blockOf, W, splitter, done, a, affected, todo)
    requires Y in todo && |affected[Y]| != |Y|
    ensures Visit(acc, sigma, inv, Q, P0, blockOf0, W0, SplitOff(P, Y, affected[Y]),
                  Retargeted(Retargeted(blockOf, affected[Y]), Y - affected[Y]),
                  Requeued(W, Y, affected[Y], Y - affected[Y]), splitter, done, a, affected, todo - {Y})
    ensures |SplitOff(P, Y, affected[Y])| == |P| + 1
  {
    HandledStep(acc, sigma, inv, Q, blockOf0, P0, W0, P, blockOf, W, splitter, done, a, affected, todo, Y);
    SplitLoopSplit(acc, sigma, inv, Q, P, blockOf, W, splitter, done, a, affected, todo, Y);
  }

  lemma VisitDone<S(!new), A(!new)>(
    acc: set<S>, sigma: set<A>, inv: map<(A, S), set<S>>, Q: set<S>,
    P0: set<set<S>>, blockOf0: map<S, set<S>>, W0: set<set<S>>,
    P: set<set<S>>, blockOf: map<S, set<S>>, W: set<set<S>>, splitter: set<S>, done: set<A>,
    a: A, affected: map<set<S>, set<S>>)
    requires Visit(acc, sigma, inv, Q, P0, blockOf0, W0, P, blockOf, W, splitter, done, a, affected, {})
    ensures Inv(acc, sigma, inv, Q, P, blockOf, W, splitter, done + {a})
    ensures StableOn(P, inv, a, splitter)
    ensures Handled(P0, W0, affected, affected.Keys, P, W)
    ensures Refines(P, P0)
  {
    SplitLoopDone(acc, sigma, inv, Q, P, blockOf, W, splitter, done, a, affected);
    assert affected.Keys - {} == affected.Keys;
    HandledDone(blockOf0, P0, W0, Q, Pre(inv, a, splitter), P, W);
  }

  /**
   * Refines the partition against one splitter, symbol by symbol (lines
   * 49-87 of solution/main.py).  Afterwards the partition is stable against the
   * splitter on every symbol of the alphabet, and it refines the partition
   * it started from.
   */
  method ProcessSplitter<S(==,!new), A(==,!new)>(
    ghost acc: set<S>, sigma: set<A>, inv: map<(A, S), set<S>>, ghost Q: set<S>,
    P0: set<set<S>>, blockOf0: map<S, set<S>>, W0: set<set<S>>, splitter: set<S>)
    returns (P: set<set<S>>, blockOf: map<S, set<S>>, W: set<set<S>>)
    requires Inv(acc, sigma, inv, Q, P0, blockOf0, W0, splitter, {})
    ensures Inv(acc, sigma, inv, Q, P, blockOf, W, splitter, sigma)
    ensures Refines(P, P0)
    ensures KeptTogether(blockOf0, blockOf, inv, sigma, splitter)
    ensures StatusKept(P0, W0, P, W)
    ensures |P| >= |P0| && (|P| == |P0| ==> W == W0)
  {
    P, blockOf, W := P0, blockOf0, W0;
    var todo := sigma;
    SweepInit(acc, sigma, inv, Q, P0, blockOf0, W0, splitter);
    while todo != {}
      invariant todo <= sigma
      invariant Sweep(acc, sigma, inv, Q, P0, blockOf0, W0, P, blockOf, W, splitter, todo)
      invariant |P| >= |P0| && (|P| == |P0| ==> W == W0)
      decreases todo
    {
      var sym :| sym in todo;
      ghost var Pb, blockOfb, Wb := P, blockOf, W;
      P, blockOf, W := ProcessSymbol(acc, sigma, inv, Q, P, blockOf, W, splitter, sigma - todo, sym);
      SweepStep(acc, sigma, inv, Q, P0, blockOf0, W0, Pb, blockOfb, Wb, P, blockOf, W, splitter, todo, sym);
      todo := todo - {sym};
    }
    SweepDone(acc, sigma, inv, Q, P0, blockOf0, W0, P, blockOf, W, splitter);
  }

  /**
   * The state of the loop over the alphabet with the symbols `todo` still to
   * visit: the invariant with the others handled, refinement of `P0`,
   * states kept together, and worklist statuses kept.
   */
  ghost predicate Sweep<S(!new), A(!new)>(
    acc: set<S>, sigma: set<A>, inv: map<(A, S), set<S>>, Q: set<S>,
    P0: set<set<S>>, blockOf0: map<S, set<S>>, W0: set<set<S>>,
    P: set<set<S>>, blockOf: map<S, set<S>>, W: set<set<S>>, splitter: set<S>, todo: set<A>)
  {
    && Inv(acc, sigma, inv, Q, P, blockOf, W, splitter, sigma - todo)
    && Refines(P, P0)
    && KeptTogether(blockOf0, blockOf, inv, sigma, splitter)
    && StatusKept(P0, W0, P, W)
  }

  lemma SweepInit<S(!new), A(!new)>(
    acc: set<S>, sigma: set<A>, inv: map<(A, S), set<S>>, Q: set<S>,
    P0: set<set<S>>, blockOf0: map<S, set<S>>, W0: set<set<S>>, splitter: set<S>)
    requires Inv(acc, sigma, inv, Q, P0, blockOf0, W0, splitter, {})
    ensures Sweep(acc, sigma, inv, Q, P0, blockOf0, W0, P0, blockOf0, W0, splitter, sigma)
  {
    RefinesSelf(P0);
    IndexedIsPartition(blockOf0, P0, Q);
    StatusKeptSelf(P0, Q, W0);
    assert sigma - sigma == {};
  }

  lemma SweepStep<S(!new), A(!new)>(
    acc: set<S>, sigma: set<A>, inv: map<(A, S), set<S>>, Q: set<S>,
    P0: set<set<S>>, blockOf0: map<S, set<S>>, W0: set<set<S>>,
    Pb: set<set<S>>, blockOfb: map<S, set<S>>, Wb: set<set<S>>,
    P: set<set<S>>, blockOf: map<S, set<S>>, W: set<set<S>>, splitter: set<S>, todo: set<A>, sym: A)
    requires sym in todo && todo <= sigma
    requires Indexed(blockOf0, P0, Q) && W0 <= P0
    requires Refines(Pb, P0) && KeptTogether(blockOf0, blockOfb, inv, sigma, splitter) && StatusKept(P0, W0, Pb, Wb)
    requires Inv(acc, sigma, inv, Q, P, blockOf, W, splitter, (sigma - todo) + {sym})
    requires Refines(P, Pb) && KeptTogether(blockOfb, blockOf, inv, {sym}, splitter) && StatusKept(Pb, Wb, P, W)
    ensures Sweep(acc, sigma, inv, Q, P0, blockOf0, W0, P, blockOf, W, splitter, todo - {sym})
  {
    IndexedIsPartition(blockOf0, P0, Q);
    IndexedIsPartition(blockOf, P, Q);
    StatusKeptTrans(Q, P0, W0, Pb, Wb, P, W);
    RefinesTrans(P, Pb, P0);
    KeptTogetherTrans(blockOf0, blockOfb, blockOf, inv, sigma, sym, splitter);
    assert (sigma - todo) + {sym} == sigma - (todo - {sym});
  }

  lemma SweepDone<S(!new), A(!new)>(
    acc: set<S>, sigma: set<A>, inv: map<(A, S), set<S>>, Q: set<S>,
    P0: set<set<S>>, blockOf0: map<S, set<S>>, W0: set<set<S>>,
    P: set<set<S>>, blockOf: map<S, set<S>>, W: set<set<S>>, splitter: set<S>)
    requires Sweep(acc, sigma, inv, Q, P0, blockOf0, W0, P, blockOf, W, splitter, {})
    ensures Inv(acc, sigma, inv, Q, P, blockOf, W, splitter, sigma)
    ensures Refines(P, P0)
    ensures KeptTogether(blockOf0, blockOf, inv, sigma, splitter)
    ensures StatusKept(P0, W0, P, W)
  {
    assert sigma - {} == sigma;
  }

  /**
   * One pass of the loop over the alphabet (lines 50-87 of solution/main.py):
   * groups the predecessors of the splitter on `sym` by block and splits the
   * affected blocks.  Afterwards the partition refines the old one and is
   * stable against the splitter on `sym`.
   */
  method ProcessSymbol<S(==,!new), A(!new)>(
    ghost acc: set<S>, ghost sigma: set<A>, inv: map<(A, S), set<S>>, ghost Q: set<S>,
    P0: set<set<S>>, blockOf0: map<S, set<S>>, W0: set<set<S>>, splitter: set<S>, ghost done: set<A>, sym: A)
    returns (P: set<set<S>>, blockOf: map<S, set<S>>, W: set<set<S>>)
    requires Inv(acc, sigma, inv, Q, P0, blockOf0, W0, splitter, done) && sym in sigma
    ensures Inv(acc, sigma, inv, Q, P, blockOf, W, splitter, done + {sym})
    ensures StableOn(P, inv, sym, splitter)
    ensures Handled(P0, W0, Group(blockOf0, Pre(inv, sym, splitter)), Group(blockOf0, Pre(inv, sym, splitter)).Keys, P, W)
    ensures Refines(P, P0)
    ensures KeptTogether(blockOf0, blockOf, inv, {sym}, splitter)
    ensures StatusKept(P0, W0, P, W)
    ensures |P| >= |P0| && (|P| == |P0| ==> W == W0)
  {
    var affected := GroupPredecessors(inv, sym, splitter, blockOf0);
    if affected != map[] {
      P, blockOf, W := SplitAffected(acc, sigma, inv, Q, P0, blockOf0, W0, splitter, done, sym, affected);
    } else {
      NothingAffected(acc, sigma, inv, Q, P0, blockOf0, W0, splitter, done, sym);
      RefinesSelf(P0);
      HandledInit(P0, W0, affected);
      P, blockOf, W := P0, blockOf0, W0;
    }
    SymbolKeptTogether(acc, sigma, inv, Q, P0, blockOf0, W0, P, blockOf, W, splitter, done + {sym}, sym);
    HandledStatusDone(blockOf0, P0, W0, Q, Pre(inv, sym, splitter), P, W);
  }

  /**
   * The worklist loop (lines 46-87 of solution/main.py): pops splitters until the
   * worklist is empty.
   */
  method Refine<S(==,!new), A(==,!new)>(
    ghost acc: set<S>, sigma: set<A>, inv: map<(A, S), set<S>>, ghost Q: set<S>,
    P0: set<set<S>>, blockOf0: map<S, set<S>>, W0: set<set<S>>)
    returns (P: set<set<S>>, blockOf: map<S, set<S>>)
    requires Inv(acc, sigma, inv, Q, P0, blockOf0, W0, {}, {})
    ensures Inv(acc, sigma, inv, Q, P, blockOf, {}, {}, {})
  {
    P, blockOf := P0, blockOf0;
    var W := W0;
    IndexedIsPartition(blockOf, P, Q);
    PartitionSize(P, Q);
    while W != {}
      invariant Inv(acc, sigma, inv, Q, P, blockOf, W, {}, {})
      invariant |P| <= |Q|
      decreases |Q| - |P|, |W|
    {
      ghost var Pb, Wb := P, W;
      var splitter :| splitter in W;
      PopInv(acc, sigma, inv, Q, P, blockOf, W, splitter);
      W := W - {splitter};
      assert |W| < |Wb|;
      P, blockOf, W := ProcessSplitter(acc, sigma, inv, Q, P, blockOf, W, splitter);
      FinishInv(acc, sigma, inv, Q, P, blockOf, W, splitter);
      IndexedIsPartition(blockOf, P, Q);
      PartitionSize(P, Q);
      assert |P| > |Pb| || |W| < |Wb|;
    }
  }

  /**
   * Hopcroft's algorithm: partitions the states the inputs mention into
   * blocks of states that no word over `sigma` tells apart (lines 15-89 of
   * solution/main.py).
   *
   * For any inputs the result is a partition of the universe that keeps
   * accepting and rejecting states apart; it is empty exactly when the
   * universe is, and a single block when all states accept or all reject.
   * When the inputs describe a complete DFA, the result is stable and its
   * blocks are exactly the Myhill–Nerode classes.
   */
  method Minimize<S(==,!new), A(==,!new)>(acc: set<S>, sigma: set<A>, inv: map<(A, S), set<S>>)
    returns (P: set<set<S>>)
    ensures IsPartition(P, Universe(acc, inv))
    ensures Respects(P, acc)
    ensures P == {} <==> Universe(acc, inv) == {}
    ensures Universe(acc, inv) != {} && (Universe(acc, inv) <= acc || Universe(acc, inv) !! acc) ==>
              P == {Universe(acc, inv)}
    ensures IsCompleteDfa(acc, sigma, inv) ==> IsStable(P, inv, sigma) && MyhillNerodeClasses(acc, sigma, inv, P)
  {
    var Q := GetAllStates(acc, inv);
    if Q == {} {
      NonEmptyPartition({}, Q);
      return {};
    }

    var F := acc * Q;
    var nonF := Q - F;
    P := {};
    if F != {} {
      P := P + {F};
    }
    if nonF != {} {
      P := P + {nonF};
    }

    OneBlock(Q, F, P);
    if |P| <= 1 {
      EarlyReturn(acc, sigma, inv, Q, F, P);
      return P;
    }

    TwoBlocks(Q, F, P);
    P := RefineTwoBlocks(acc, sigma, inv, Q, F, nonF, P);
  }

  /**
   * The rest of the minimiser once both F and Q - F are non-empty (lines
   * 37-89 of solution/main.py): index the two blocks, seed the worklist with the
   * smaller one (F on a tie), and refine until the worklist is empty.
   */
  method RefineTwoBlocks<S(==,!new), A(==,!new)>(
    ghost acc: set<S>, sigma: set<A>, inv: map<(A, S), set<S>>, ghost Q: set<S>,
    F: set<S>, nonF: set<S>, P0: set<set<S>>)
    returns (P: set<set<S>>)
    requires Q == Universe(acc, inv) && F == acc * Q && nonF == Q - F
    requires F != {} && nonF != {} && P0 == {F, nonF}
    ensures IsPartition(P, Q)
    ensures Respects(P, acc)
    ensures P != {} && !(Q <= acc || Q !! acc)
    ensures IsCompleteDfa(acc, sigma, inv) ==> IsStable(P, inv, sigma) && MyhillNerodeClasses(acc, sigma, inv, P)
  {
    TwoBlockPartition(Q, F);
    var blockOf := IndexBlocks(P0, Q);
    var W: set<set<S>> := {};
    W := W + {if |F| <= |nonF| then F else nonF};
    InitInv(acc, sigma, inv, Q, blockOf, F, W);
    P, blockOf := Refine(acc, sigma, inv, Q, P0, blockOf, W);
    Result(acc, sigma, inv, Q, P, blockOf);
  }

  /** When the initial partition has two blocks, they are F and Q - F. */
  lemma TwoBlocks<S>(Q: set<S>, F: set<S>, P: set<set<S>>)
    requires F <= Q
    requires P == (if F != {} then {F} else {}) + (if Q - F != {} then {Q - F} else {})
    requires |P| > 1
    ensures F != {} && Q - F != {} && P == {F, Q - F}
  {
    OneBlock(Q, F, P);
  }

  /** Two non-empty complementary parts of Q make a partition of Q. */
  lemma TwoBlockPartition<S>(Q: set<S>, F: set<S>)
    requires F <= Q && F != {} && Q - F != {}
    ensures IsPartition({F, Q - F}, Q)
  {
    var P := {F, Q - F};
    forall x | x in Q
      ensures Covered(P, x)
    {
      if x in F {
        assert F in P;
      } else {
        assert Q - F in P;
      }
    }
  }

  /** What the minimiser promises, from the invariant with an empty worklist. */
  lemma Result<S(!new), A(!new)>(
    acc: set<S>, sigma: set<A>, inv: map<(A, S), set<S>>, Q: set<S>, P: set<set<S>>, blockOf: map<S, set<S>>)
    requires Inv(acc, sigma, inv, Q, P, blockOf, {}, {}, {})
    requires acc * Q != {} && Q - acc != {}
    ensures IsPartition(P, Universe(acc, inv))
    ensures Respects(P, acc)
    ensures P != {} && Universe(acc, inv) != {}
    ensures !(Universe(acc, inv) <= acc || Universe(acc, inv) !! acc)
    ensures IsCompleteDfa(acc, sigma, inv) ==> IsStable(P, inv, sigma) && MyhillNerodeClasses(acc, sigma, inv, P)
  {
    IndexedIsPartition(blockOf, P, Q);
    NonEmptyPartition(P, Q);
    if IsCompleteDfa(acc, sigma, inv) {
      FinalInv(acc, sigma, inv, Q, P, blockOf);
    }
  }

  /** A partition is empty exactly when the states it partitions are. */
  lemma NonEmptyPartition<S>(P: set<set<S>>, Q: set<S>)
    requires IsPartition(P, Q)
    ensures P == {} <==> Q == {}
  {
    if Q != {} {
      var x :| x in Q;
      assert Covered(P, x);
    }
    if P != {} {
      var B :| B in P;
      assert B != {};
      var x :| x in B;
      assert x in Q;
    }
  }

  /**
   * The initial partition has at most one block exactly when one of F and
   * Q - F is empty.
   */
  lemma OneBlock<S>(Q: set<S>, F: set<S>, P: set<set<S>>)
    requires F <= Q
    requires P == (if F != {} then {F} else {}) + (if Q - F != {} then {Q - F} else {})
    ensures |P| <= 1 <==> F == {} || Q - F == {}
  {
    if F != {} && Q - F != {} {
      var x :| x in F;
      assert x !in Q - F;
      assert |P| == 2;
    }
  }

  /**
   * When one of F and Q - F is empty, the one-block result {Q} meets the
   * postcondition of the minimiser.
   */
  lemma EarlyReturn<S(!new), A(!new)>(acc: set<S>, sigma: set<A>, inv: map<(A, S), set<S>>, Q: set<S>, F: set<S>, P: set<set<S>>)
    requires Q == Universe(acc, inv) && Q != {} && F == acc * Q
    requires P == (if F != {} then {F} else {}) + (if Q - F != {} then {Q - F} else {})
    requires F == {} || Q - F == {}
    ensures P == {Q} && (Q <= acc || Q !! acc)
    ensures IsPartition(P, Q) && Respects(P, acc)
    ensures IsCompleteDfa(acc, sigma, inv) ==> IsStable(P, inv, sigma) && MyhillNerodeClasses(acc, sigma, inv, P)
  {
    if F == {} {
      assert Q - F == Q;
    } else {
      NoRest(F, Q);
    }
    assert P == {Q};
    forall x | x in Q
      ensures Covered(P, x)
    {
      assert Q in P;
    }
    if IsCompleteDfa(acc, sigma, inv) {
      HomogeneousClasses(acc, sigma, inv);
    }
  }
}
