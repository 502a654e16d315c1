/**
 Version vectors: one counter per node, with a missing key standing for zero.

 The predicates and functions give the algebra pointwise, over every node id;
 the methods are the loops the program runs, proved to compute them.
 */
module Vectors {

  // Counters are 64-bit unsigned words.
  const MAX_COUNTER: nat := 0xFFFF_FFFF_FFFF_FFFF

  type Counter = x: nat | x <= MAX_COUNTER

  type NodeId = string

  type Vector = map<NodeId, Counter>

  function At(v: Vector, k: NodeId): Counter {
    if k in v then v[k] else 0
  }

  function Max(x: Counter, y: Counter): Counter {
    if x < y then y else x
  }

  /** Every counter of `a` is at most the matching counter of `b`. */
  ghost predicate Leq(a: Vector, b: Vector) {
    forall k :: At(a, k) <= At(b, k)
  }

  predicate Equal(a: Vector, b: Vector)
    ensures Equal(a, b) <==> forall k :: At(a, k) == At(b, k)
  {
    && (forall k :: k in a ==> At(b, k) == At(a, k))
    && (forall k :: k in b ==> At(a, k) == At(b, k))
  }

  predicate Dominates(a: Vector, b: Vector)
    ensures Dominates(a, b) <==> Leq(b, a) && exists k :: At(a, k) > At(b, k)
  {
    && (forall k :: k in a ==> At(a, k) >= At(b, k))
    && (forall k :: k in b && k !in a ==> At(b, k) == 0)
    && exists k :: k in a && At(a, k) > At(b, k)
  }

  predicate Concurrent(a: Vector, b: Vector) {
    !Equal(a, b) && !Dominates(a, b) && !Dominates(b, a)
  }

  function Merge(a: Vector, b: Vector): (m: Vector)
    ensures forall k :: At(m, k) == Max(At(a, k), At(b, k))
  {
    map k | k in a.Keys + b.Keys :: Max(At(a, k), At(b, k))
  }

  // A counter at the top of its range wraps to zero, as a 64-bit word does.
  function Bump(v: Vector, n: NodeId): (w: Vector)
    ensures forall k :: k != n ==> At(w, k) == At(v, k)
    ensures At(v, n) < MAX_COUNTER ==> At(w, n) == At(v, n) + 1
  {
    v[n := if At(v, n) == MAX_COUNTER then 0 else At(v, n) + 1]
  }

  /** Of the four relations, exactly one holds for any pair of vectors. */
  lemma ExactlyOneRelation(a: Vector, b: Vector)
    ensures Concurrent(a, b) <==> !Leq(a, b) && !Leq(b, a)
    ensures Equal(a, b) <==> Leq(a, b) && Leq(b, a)
    ensures Dominates(a, b) <==> Leq(b, a) && !Leq(a, b)
    ensures !(Equal(a, b) && Dominates(a, b)) && !(Dominates(a, b) && Dominates(b, a))
  {
    if Leq(b, a) && !Leq(a, b) {
      var k :| At(a, k) > At(b, k);
    }
    if Leq(a, b) && !Leq(b, a) {
      var k :| At(b, k) > At(a, k);
    }
  }

  /** Merge is the least upper bound: a vector is above both sides exactly when it is above the merge. */
  lemma MergeIsLeastUpperBound(a: Vector, b: Vector, c: Vector)
    ensures Leq(a, Merge(a, b)) && Leq(b, Merge(a, b))
    ensures Leq(Merge(a, b), c) <==> Leq(a, c) && Leq(b, c)
  {
    var m := Merge(a, b);
    if Leq(m, c) {
      forall k ensures At(a, k) <= At(c, k) && At(b, k) <= At(c, k) {
        assert At(m, k) <= At(c, k);
      }
    }
    if Leq(a, c) && Leq(b, c) {
      forall k ensures At(m, k) <= At(c, k) {
        assert At(a, k) <= At(c, k) && At(b, k) <= At(c, k);
      }
    }
  }

  /** Neither the order in which versions are merged matters, nor how often. */
  lemma MergeOrderIrrelevant(a: Vector, b: Vector, c: Vector, k: NodeId)
    ensures At(Merge(a, b), k) == At(Merge(b, a), k)
    ensures At(Merge(Merge(a, b), c), k) == At(Merge(a, Merge(b, c)), k)
    ensures At(Merge(a, a), k) == At(a, k) && At(Merge(Merge(a, b), b), k) == At(Merge(a, b), k)
  {
    assert At(Merge(a, b), k) == Max(At(a, k), At(b, k));
    assert At(Merge(b, c), k) == Max(At(b, k), At(c, k));
  }

  /** A bump records a new version exactly when the counter does not wrap. */
  lemma BumpDominatesUnlessItWraps(v: Vector, n: NodeId)
    ensures Dominates(Bump(v, n), v) <==> At(v, n) < MAX_COUNTER
  {
    var w := Bump(v, n);
    if At(v, n) < MAX_COUNTER {
      assert At(w, n) > At(v, n);
    } else {
      assert At(w, n) < At(v, n);
    }
  }

  /** Resolving a conflict yields a version above both sides. */
  lemma MergeBumpDominates(a: Vector, b: Vector, n: NodeId)
    requires At(a, n) < MAX_COUNTER && At(b, n) < MAX_COUNTER
    ensures Dominates(Bump(Merge(a, b), n), a) && Dominates(Bump(Merge(a, b), n), b)
  {
    var w := Bump(Merge(a, b), n);
    assert At(w, n) > At(a, n) && At(w, n) > At(b, n);
  }

  // --- The loops ------------------------------------------------------------

  method ComputeEqual(a: Vector, b: Vector) returns (r: bool)
    ensures r <==> forall k :: At(a, k) == At(b, k)
  {
    var todo := a.Keys;
    while todo != {}
      invariant todo <= a.Keys
      invariant forall k :: k in a.Keys - todo ==> At(b, k) == At(a, k)
      decreases todo
    {
      var k :| k in todo;
      if At(b, k) != a[k] { return false; }
      todo := todo - {k};
    }
    todo := b.Keys;
    while todo != {}
      invariant todo <= b.Keys
      invariant forall k :: k in b.Keys - todo ==> At(a, k) == At(b, k)
      decreases todo
    {
      var k :| k in todo;
      if At(a, k) != b[k] { return false; }
      todo := todo - {k};
    }
    return true;
  }

  method ComputeDominates(a: Vector, b: Vector) returns (r: bool)
    ensures r <==> Leq(b, a) && exists k :: At(a, k) > At(b, k)
  {
    var strict := false;
    var todo := a.Keys;
    while todo != {}
      invariant todo <= a.Keys
      invariant forall k :: k in a.Keys - todo ==> At(a, k) >= At(b, k)
      invariant strict <==> exists k :: k in a.Keys - todo && At(a, k) > At(b, k)
      decreases todo
    {
      var k :| k in todo;
      if a[k] < At(b, k) { return false; }
      if a[k] > At(b, k) { strict := true; }
      todo := todo - {k};
    }
    todo := b.Keys;
    while todo != {}
      invariant todo <= b.Keys
      invariant forall k :: k in b.Keys - todo ==> At(a, k) >= At(b, k)
      decreases todo
    {
      var k :| k in todo;
      if k !in a && At(a, k) < b[k] { return false; }
      todo := todo - {k};
    }
    assert forall k :: k !in b ==> At(b, k) == 0;
    return strict;
  }

  method ComputeMerge(a: Vector, b: Vector) returns (out: Vector)
    ensures forall k :: At(out, k) == Max(At(a, k), At(b, k))
  {
    out := map[];
    var todo := a.Keys;
    while todo != {}
      invariant todo <= a.Keys
      invariant out.Keys == a.Keys - todo
      invariant forall k :: k in out ==> out[k] == a[k]
      decreases todo
    {
      var k :| k in todo;
      out := out[k := a[k]];
      todo := todo - {k};
    }
    todo := b.Keys;
    while todo != {}
      invariant todo <= b.Keys
      invariant forall k :: At(out, k) == if k in todo then At(a, k) else Max(At(a, k), At(b, k))
      decreases todo
    {
      var k :| k in todo;
      if b[k] > At(out, k) { out := out[k := b[k]]; }
      todo := todo - {k};
    }
  }
}
