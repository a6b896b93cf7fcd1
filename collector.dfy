/**
 * The state collector: the universe of states that the inputs of the
 * minimiser refer to.
 *
 * A DFA is given in inverse form: `inv[(a, t)]` is the set of states that
 * move to `t` on symbol `a`.  An absent entry and an empty set both mean
 * "no predecessors".
 */
module Collector {

  /** The predecessors of `t` on symbol `a` (the `.get` lookup, with an absent key read as none). */
  function Preds<S(==), A(==)>(inv: map<(A, S), set<S>>, a: A, t: S): (r: set<S>)
    ensures (a, t) !in inv ==> r == {}
  {
    if (a, t) in inv then inv[(a, t)] else {}
  }

  /** Every target and every predecessor mentioned by the entries `keys` of `inv`. */
  ghost function Referenced<S, A>(inv: map<(A, S), set<S>>, keys: set<(A, S)>): set<S>
  {
    (set k | k in keys && k in inv :: k.1) + (set k, q | k in keys && k in inv && q in inv[k] :: q)
  }

  /** The state universe Q: accepting states, every target and every predecessor. */
  ghost function Universe<S, A>(acc: set<S>, inv: map<(A, S), set<S>>): set<S>
  {
    acc + Referenced(inv, inv.Keys)
  }

  lemma ReferencedAdd<S, A>(inv: map<(A, S), set<S>>, keys: set<(A, S)>, k: (A, S))
    requires k in inv
    ensures Referenced(inv, keys + {k}) == Referenced(inv, keys) + {k.1} + inv[k]
  {
  }

  /** Gathers the universe by walking the entries of `inv` one at a time. */
  method GetAllStates<S(==), A(==)>(acc: set<S>, inv: map<(A, S), set<S>>) returns (states: set<S>)
    ensures states == Universe(acc, inv)
  {
    states := acc;
    var todo := inv.Keys;
    while todo != {}
      invariant todo <= inv.Keys
      invariant states == acc + Referenced(inv, inv.Keys - todo)
      decreases todo
    {
      var k :| k in todo;
      var preds := inv[k];
      ReferencedAdd(inv, inv.Keys - todo, k);
      assert inv.Keys - (todo - {k}) == (inv.Keys - todo) + {k};
      todo := todo - {k};
      states := states + {k.1};
      if preds != {} {
        states := states + preds;
      }
    }
  }

  /** A state belongs to the universe exactly when it is accepting, a target or a predecessor. */
  lemma UniverseMembers<S, A>(acc: set<S>, inv: map<(A, S), set<S>>, x: S)
    ensures x in Universe(acc, inv) <==>
      x in acc || exists a: A, t: S :: (a, t) in inv && (x == t || x in inv[(a, t)])
  {
    if x in Universe(acc, inv) && x !in acc {
      var k :| k in inv && (x == k.1 || x in inv[k]);
      assert (k.0, k.1) in inv && (x == k.1 || x in inv[(k.0, k.1)]);
    }
  }

  /** Every predecessor set lies inside the universe, for every symbol. */
  lemma PredsInUniverse<S, A>(acc: set<S>, inv: map<(A, S), set<S>>, a: A, t: S)
    ensures Preds(inv, a, t) <= Universe(acc, inv)
    ensures Preds(inv, a, t) != {} ==> t in Universe(acc, inv)
  {
    if (a, t) in inv {
      assert (a, t) in inv.Keys;
    }
  }

  /** The universe is empty exactly when there is no accepting state and no entry at all. */
  lemma UniverseEmpty<S, A>(acc: set<S>, inv: map<(A, S), set<S>>)
    ensures Universe(acc, inv) == {} <==> acc == {} && inv == map[]
  {
    if inv != map[] {
      var k :| k in inv;
      assert k.1 in Universe(acc, inv);
    }
  }
}
