/**
 * Partitions of a state universe into blocks, the block index that maps
 * every state to the block holding it, and the effect of one split.
 */
module Partitions {

  /** The blocks of `P` are non-empty, lie in `Q`, and are pairwise disjoint. */
  ghost predicate Blocks<S>(P: set<set<S>>, Q: set<S>)
  {
    && {} !in P
    && (forall B :: B in P ==> B <= Q)
    && (forall B, C :: B in P && C in P && B != C ==> B !! C)
  }

  /** Some block of `P` holds `x`. */
  ghost predicate Covered<S>(P: set<set<S>>, x: S)
  {
    exists B :: B in P && x in B
  }

  /** `P` is a partition of `Q`: disjoint non-empty blocks whose union is `Q`. */
  ghost predicate IsPartition<S>(P: set<set<S>>, Q: set<S>)
  {
    && Blocks(P, Q)
    && (forall x :: x in Q ==> Covered(P, x))
  }

  /**
   * `blockOf` indexes the partition `P` of `Q`: the blocks are non-empty, each
   * state of `Q` maps to a block of `P` that holds it, and every member of a
   * block maps to that block (so blocks are disjoint).
   */
  ghost predicate Indexed<S>(blockOf: map<S, set<S>>, P: set<set<S>>, Q: set<S>)
  {
    && blockOf.Keys == Q
    && {} !in P
    && (forall B, x :: B in P && x in B ==> x in Q && blockOf[x] == B)
    && (forall x :: x in Q ==> x in blockOf[x] && blockOf[x] in P)
  }

  /** No block of `P` mixes members of `F` with non-members. */
  ghost predicate Respects<S>(P: set<set<S>>, F: set<S>)
  {
    forall B :: B in P ==> B <= F || B !! F
  }

  /** `blockOf` after every state of `part` is pointed at `part`. */
  ghost function Retargeted<S>(blockOf: map<S, set<S>>, part: set<S>): map<S, set<S>>
  {
    map x | x in blockOf.Keys + part :: if x in part then part else blockOf[x]
  }

  /** The partition after block `Y` is replaced by `O` and `Y - O`. */
  ghost function SplitOff<S>(P: set<set<S>>, Y: set<S>, O: set<S>): set<set<S>>
  {
    P - {Y} + {O, Y - O}
  }

  /** Some block of `P0` contains `B`. */
  ghost predicate Inside<S>(B: set<S>, P0: set<set<S>>)
  {
    exists B0 :: B0 in P0 && B <= B0
  }

  /** `P` refines `P0`: every block of `P` lies inside a block of `P0`. */
  ghost predicate Refines<S>(P: set<set<S>>, P0: set<set<S>>)
  {
    forall B :: B in P ==> Inside(B, P0)
  }

  lemma IndexedIsPartition<S>(blockOf: map<S, set<S>>, P: set<set<S>>, Q: set<S>)
    requires Indexed(blockOf, P, Q)
    ensures IsPartition(P, Q)
  {
    forall B, C | B in P && C in P && B != C
      ensures B !! C
    {
      forall x | x in B
        ensures x !in C
      {
        assert blockOf[x] == B;
      }
    }
    forall x | x in Q
      ensures Covered(P, x)
    {
      assert blockOf[x] in P && x in blockOf[x];
    }
  }

  /** Taking one block out of a partition leaves a partition of the remaining states. */
  lemma PartitionRemove<S>(P: set<set<S>>, Q: set<S>, B: set<S>)
    requires IsPartition(P, Q) && B in P
    ensures IsPartition(P - {B}, Q - B)
  {
    var P', Q' := P - {B}, Q - B;
    forall y | y in Q'
      ensures Covered(P', y)
    {
      var C :| C in P && y in C;
      assert C != B && C in P';
    }
    forall C | C in P'
      ensures C != {} && C <= Q'
    {
      assert C !! B;
    }
  }

  lemma DifferenceSize<S>(Q: set<S>, B: set<S>)
    requires B <= Q
    ensures |Q - B| == |Q| - |B|
  {
    assert Q == (Q - B) + B;
    assert (Q - B) !! B;
  }

  /** A partition has no more blocks than the universe has states. */
  lemma {:induction false} PartitionSize<S>(P: set<set<S>>, Q: set<S>)
    requires IsPartition(P, Q)
    ensures |P| <= |Q|
  {
    if P != {} {
      var B :| B in P;
      PartitionRemove(P, Q, B);
      PartitionSize(P - {B}, Q - B);
      DifferenceSize(Q, B);
      assert |B| >= 1 by {
        var x :| x in B;
      }
    }
  }

  /** A subset with as many elements as its superset is the superset itself. */
  lemma SameSizeSubset<S>(O: set<S>, Y: set<S>)
    requires O <= Y && |O| == |Y|
    ensures O == Y
  {
    assert |Y - O| == |Y| - |O|;
  }

  /** A part of `Y` that leaves no rest is all of `Y`. */
  lemma NoRest<S>(O: set<S>, Y: set<S>)
    requires O <= Y
    ensures Y - O == {} ==> O == Y
  {
    if Y - O == {} {
      forall x | x in Y
        ensures x in O
      {
        assert x !in Y - O;
      }
    }
  }

  /** The two parts of a split are new, distinct, non-empty blocks. */
  lemma SplitParts<S>(blockOf: map<S, set<S>>, P: set<set<S>>, Q: set<S>, Y: set<S>, O: set<S>)
    requires Indexed(blockOf, P, Q)
    requires Y in P && O <= Y && O != {} && O != Y
    ensures Y - O != {} && O != Y - O
    ensures O !in P - {Y} && Y - O !in P - {Y}
  {
    NoRest(O, Y);
    var x :| x in O;
    assert x in Y && x !in Y - O && blockOf[x] == Y;
    if O in P - {Y} {
      assert false;
    }
    var y :| y in Y - O;
    assert blockOf[y] == Y;
    if Y - O in P - {Y} {
      assert false;
    }
  }

  /** Splitting a block adds exactly one block. */
  lemma SplitCount<S>(blockOf: map<S, set<S>>, P: set<set<S>>, Q: set<S>, Y: set<S>, O: set<S>)
    requires Indexed(blockOf, P, Q)
    requires Y in P && O <= Y && O != {} && O != Y
    ensures |SplitOff(P, Y, O)| == |P| + 1
  {
    SplitParts(blockOf, P, Q, Y, O);
    var P' := SplitOff(P, Y, O);
    assert P' == (P - {Y}) + {O} + {Y - O};
    assert |(P - {Y}) + {O}| == |P - {Y}| + 1;
  }

  /** What the index says after one retargeting. */
  lemma RetargetedAt<S>(blockOf: map<S, set<S>>, part: set<S>, x: S)
    ensures x in Retargeted(blockOf, part) <==> x in blockOf || x in part
    ensures x in part ==> Retargeted(blockOf, part)[x] == part
    ensures x in blockOf && x !in part ==> Retargeted(blockOf, part)[x] == blockOf[x]
  {
  }

  /** Where one state lands in the index after a split. */
  lemma SplitIndexAt<S>(blockOf: map<S, set<S>>, P: set<set<S>>, Q: set<S>, Y: set<S>, O: set<S>, x: S)
    requires Indexed(blockOf, P, Q)
    requires Y in P && O <= Y
    ensures x in Retargeted(Retargeted(blockOf, O), Y - O) <==> x in Q
    ensures x in Q ==> x in Retargeted(Retargeted(blockOf, O), Y - O)[x]
    ensures x in Q ==> Retargeted(Retargeted(blockOf, O), Y - O)[x] in SplitOff(P, Y, O)
  {
    var m1 := Retargeted(blockOf, O);
    RetargetedAt(blockOf, O, x);
    RetargetedAt(m1, Y - O, x);
    if x in Q && x !in Y {
      assert blockOf[x] != Y;
    }
  }

  /** After a split, every member of a block is indexed to that block. */
  lemma SplitMemberAt<S>(blockOf: map<S, set<S>>, P: set<set<S>>, Q: set<S>, Y: set<S>, O: set<S>, B: set<S>, x: S)
    requires Indexed(blockOf, P, Q)
    requires Y in P && O <= Y
    requires B in SplitOff(P, Y, O) && x in B
    ensures x in Q && Retargeted(Retargeted(blockOf, O), Y - O)[x] == B
  {
    var m1 := Retargeted(blockOf, O);
    RetargetedAt(blockOf, O, x);
    RetargetedAt(m1, Y - O, x);
    if B != O && B != Y - O {
      assert blockOf[x] == B;
    }
  }

  lemma SplitKeys<S>(blockOf: map<S, set<S>>, P: set<set<S>>, Q: set<S>, Y: set<S>, O: set<S>)
    requires Indexed(blockOf, P, Q)
    requires Y in P && O <= Y
    ensures forall x :: x in Retargeted(Retargeted(blockOf, O), Y - O) <==> x in Q
  {
    forall x
      ensures x in Retargeted(Retargeted(blockOf, O), Y - O) <==> x in Q
    {
      SplitIndexAt(blockOf, P, Q, Y, O, x);
    }
  }

  lemma SplitSelf<S>(blockOf: map<S, set<S>>, P: set<set<S>>, Q: set<S>, Y: set<S>, O: set<S>)
    requires Indexed(blockOf, P, Q)
    requires Y in P && O <= Y
    ensures forall x :: x in Q ==> x in Retargeted(Retargeted(blockOf, O), Y - O)[x]
  {
    forall x | x in Q
      ensures x in Retargeted(Retargeted(blockOf, O), Y - O)[x]
    {
      SplitIndexAt(blockOf, P, Q, Y, O, x);
    }
  }

  lemma SplitInBlocks<S>(blockOf: map<S, set<S>>, P: set<set<S>>, Q: set<S>, Y: set<S>, O: set<S>)
    requires Indexed(blockOf, P, Q)
    requires Y in P && O <= Y
    ensures forall x :: x in Q ==> Retargeted(Retargeted(blockOf, O), Y - O)[x] in SplitOff(P, Y, O)
  {
    forall x | x in Q
      ensures Retargeted(Retargeted(blockOf, O), Y - O)[x] in SplitOff(P, Y, O)
    {
      SplitIndexAt(blockOf, P, Q, Y, O, x);
    }
  }

  lemma SplitMembers<S>(blockOf: map<S, set<S>>, P: set<set<S>>, Q: set<S>, Y: set<S>, O: set<S>)
    requires Indexed(blockOf, P, Q)
    requires Y in P && O <= Y
    ensures forall B, x :: B in SplitOff(P, Y, O) && x in B ==>
      x in Q && Retargeted(Retargeted(blockOf, O), Y - O)[x] == B
  {
    forall B, x | B in SplitOff(P, Y, O) && x in B
      ensures x in Q && Retargeted(Retargeted(blockOf, O), Y - O)[x] == B
    {
      SplitMemberAt(blockOf, P, Q, Y, O, B, x);
    }
  }

  lemma SplitNonEmpty<S>(blockOf: map<S, set<S>>, P: set<set<S>>, Q: set<S>, Y: set<S>, O: set<S>)
    requires Indexed(blockOf, P, Q)
    requires Y in P && O <= Y && O != {} && O != Y
    ensures {} !in SplitOff(P, Y, O)
  {
    SplitParts(blockOf, P, Q, Y, O);
  }

  /**
   * Splitting a block of an indexed partition into a non-empty strict part `O`
   * and its rest, and retargeting the index of both parts, gives an indexed
   * partition.
   */
  lemma SplitIndexed<S>(blockOf: map<S, set<S>>, P: set<set<S>>, Q: set<S>, Y: set<S>, O: set<S>)
    requires Indexed(blockOf, P, Q)
    requires Y in P && O <= Y && O != {} && O != Y
    ensures Indexed(Retargeted(Retargeted(blockOf, O), Y - O), SplitOff(P, Y, O), Q)
  {
    SplitKeys(blockOf, P, Q, Y, O);
    SplitSelf(blockOf, P, Q, Y, O);
    SplitInBlocks(blockOf, P, Q, Y, O);
    SplitMembers(blockOf, P, Q, Y, O);
    SplitNonEmpty(blockOf, P, Q, Y, O);
    IndexedIntro(Retargeted(Retargeted(blockOf, O), Y - O), SplitOff(P, Y, O), Q);
  }

  lemma IndexedIntro<S>(blockOf: map<S, set<S>>, P: set<set<S>>, Q: set<S>)
    requires forall x :: x in blockOf <==> x in Q
    requires {} !in P
    requires forall B, x :: B in P && x in B ==> x in Q && blockOf[x] == B
    requires forall x :: x in Q ==> x in blockOf[x] && blockOf[x] in P
    ensures Indexed(blockOf, P, Q)
  {
    assert blockOf.Keys == Q;
  }

  /** Every partition refines itself. */
  lemma RefinesSelf<S>(P: set<set<S>>)
    ensures Refines(P, P)
  {
    forall B | B in P
      ensures Inside(B, P)
    {
      assert B <= B;
    }
  }

  /** Refinement is transitive. */
  lemma RefinesTrans<S>(P2: set<set<S>>, P1: set<set<S>>, P0: set<set<S>>)
    requires Refines(P2, P1) && Refines(P1, P0)
    ensures Refines(P2, P0)
  {
    forall B | B in P2
      ensures Inside(B, P0)
    {
      var B1 :| B1 in P1 && B <= B1;
      var B0 :| B0 in P0 && B1 <= B0;
    }
  }
}
