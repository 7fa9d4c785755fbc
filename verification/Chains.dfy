/** Graphs with at most one edge out of each node: who waits for whom, or which
    mount hangs on which. */
module Chains {
  import opened Options

  type Graph<T(==)> = map<T, T>

  /** Follow n edges from o. */
  function Chain<T>(g: Graph<T>, o: T, n: nat): Option<T>
    decreases n
  {
    if n == 0 then Some(o)
    else if o in g then Chain(g, g[o], n - 1)
    else None
  }

  ghost predicate Reaches<T>(g: Graph<T>, a: T, b: T) {
    exists n: nat :: Chain(g, a, n) == Some(b)
  }

  ghost predicate Acyclic<T(!new)>(g: Graph<T>) {
    forall o, n: nat :: n > 0 ==> Chain(g, o, n) != Some(o)
  }

  lemma {:induction false} ChainAdd<T>(g: Graph<T>, o: T, m: nat, n: nat)
    requires Chain(g, o, m).Some?
    ensures Chain(g, o, m + n) == Chain(g, Chain(g, o, m).value, n)
    decreases m
  {
    if m > 0 { ChainAdd(g, g[o], m - 1, n); }
  }

  lemma {:induction false} ChainSub<T>(g: Graph<T>, h: Graph<T>, o: T, n: nat)
    requires forall k :: k in g ==> k in h && h[k] == g[k]
    requires Chain(g, o, n).Some?
    ensures Chain(h, o, n) == Chain(g, o, n)
    decreases n
  {
    if n > 0 { ChainSub(g, h, g[o], n - 1); }
  }

  /** Removing edges closes no cycle. */
  lemma AcyclicSub<T(!new)>(g: Graph<T>, h: Graph<T>)
    requires Acyclic(h) && forall k :: k in g ==> k in h && h[k] == g[k]
    ensures Acyclic(g)
  {
    forall o, n: nat | n > 0 ensures Chain(g, o, n) != Some(o) {
      if Chain(g, o, n).Some? { ChainSub(g, h, o, n); }
    }
  }

  /** With a new edge c -> d, a chain either avoids c or passes through it. */
  lemma {:induction false} ChainExtended<T>(g: Graph<T>, c: T, d: T, o: T, n: nat)
    requires c !in g
    ensures Reaches(g, o, c) || Chain(g[c := d], o, n) == Chain(g, o, n)
    decreases n
  {
    if n > 0 {
      if o == c {
        assert Chain(g, o, 0) == Some(c);
      } else if o in g {
        ChainExtended(g, c, d, g[o], n - 1);
        if Reaches(g, g[o], c) {
          var m: nat :| Chain(g, g[o], m) == Some(c);
          assert Chain(g, o, m + 1) == Some(c);
        }
      }
    }
  }

  /** A chain that comes back in the larger graph can be rotated to start after c. */
  lemma AcyclicAdd<T(!new)>(g: Graph<T>, c: T, d: T)
    requires Acyclic(g) && c !in g && !Reaches(g, d, c)
    ensures Acyclic(g[c := d])
  {
    var h := g[c := d];
    forall o, n: nat | n > 0 ensures Chain(h, o, n) != Some(o) {
      ChainExtended(g, c, d, o, n);
      if Reaches(g, o, c) && Chain(h, o, n) == Some(o) {
        var m: nat :| Chain(g, o, m) == Some(c);
        ChainSub(g, h, o, m);
        Rotate(h, o, n, m);
        ChainExtended(g, c, d, d, n - 1);
      }
    }
  }

  /** If o comes back to itself after n steps, so does whatever o reaches. */
  lemma Rotate<T>(g: Graph<T>, o: T, n: nat, m: nat)
    requires Chain(g, o, n) == Some(o) && Chain(g, o, m).Some?
    ensures Chain(g, Chain(g, o, m).value, n) == Chain(g, o, m)
  {
    ChainAdd(g, o, m, n);
    ChainAdd(g, o, n, m);
  }

  /** No node occurs twice on a chain. */
  lemma ChainDistinct<T(!new)>(g: Graph<T>, o: T, i: nat, j: nat)
    requires Acyclic(g) && i < j && Chain(g, o, i).Some?
    ensures Chain(g, o, i) != Chain(g, o, j)
  {
    ChainAdd(g, o, i, j - i);
  }

  lemma {:induction false} ChainPrefix<T>(g: Graph<T>, o: T, i: nat, j: nat)
    requires i <= j && Chain(g, o, j).Some?
    ensures Chain(g, o, i).Some?
    decreases j
  {
    if i > 0 { ChainPrefix(g, g[o], i - 1, j - 1); }
  }

  /** The nodes passed in the first n steps from o. */
  ghost function Passed<T>(g: Graph<T>, o: T, n: nat): set<T> {
    set i: nat | 0 <= i < n && Chain(g, o, i).Some? :: Chain(g, o, i).value
  }

  /** A chain of n steps passes n different nodes. */
  lemma {:induction false} PassedSize<T(!new)>(g: Graph<T>, o: T, n: nat)
    requires Acyclic(g) && Chain(g, o, n).Some?
    ensures |Passed(g, o, n)| == n && Passed(g, o, n) <= g.Keys
  {
    if n > 0 {
      ChainPrefix(g, o, n - 1, n);
      PassedSize(g, o, n - 1);
      var x := Chain(g, o, n - 1).value;
      assert Passed(g, o, n) == Passed(g, o, n - 1) + {x};
      forall i: nat | i < n - 1 && Chain(g, o, i).Some? ensures Chain(g, o, i).value != x {
        ChainDistinct(g, o, i, n - 1);
      }
      ChainAdd(g, o, n - 1, 1);
      assert Chain(g, x, 1).Some?;
    }
  }

  /** No chain is longer than the number of edges. */
  lemma ChainBound<T(!new)>(g: Graph<T>, o: T, n: nat)
    requires Acyclic(g) && Chain(g, o, n).Some?
    ensures n <= |g|
  {
    PassedSize(g, o, n);
    SubsetSize(Passed(g, o, n), g.Keys);
  }

  lemma {:induction false} SubsetSize<T>(a: set<T>, b: set<T>)
    requires a <= b
    ensures |a| <= |b|
  {
    if a != {} {
      var x :| x in a;
      SubsetSize(a - {x}, b - {x});
    }
  }

  /** From every node the chain ends at a node without an edge. */
  lemma ChainEnds<T(!new)>(g: Graph<T>, o: T) returns (n: nat)
    requires Acyclic(g)
    ensures Chain(g, o, n).Some? && Chain(g, o, n).value !in g
  {
    n := 0;
    while Chain(g, o, n).value in g
      invariant Chain(g, o, n).Some?
      decreases |g| - n
    {
      ChainBound(g, o, n);
      ChainAdd(g, o, n, 1);
      assert Chain(g, Chain(g, o, n).value, 1).Some?;
      n := n + 1;
      ChainBound(g, o, n);
    }
  }

  /** Past the end of a chain there is nothing more to find. */
  lemma NothingBeyond<T>(g: Graph<T>, a: T, n: nat, b: T)
    requires Chain(g, a, n).Some? && Chain(g, a, n).value !in g
    requires forall m: nat :: m <= n ==> Chain(g, a, m) != Some(b)
    ensures !Reaches(g, a, b)
  {
    forall m: nat ensures Chain(g, a, m) != Some(b) {
      if m > n {
        ChainAdd(g, a, n, m - n);
      }
    }
  }

  /** What a node points to never leads back to it. */
  lemma NoReturn<T(!new)>(g: Graph<T>, y: T)
    requires Acyclic(g) && y in g
    ensures !Reaches(g, g[y], y)
  {
    forall n: nat ensures Chain(g, g[y], n) != Some(y) {
      assert Chain(g, y, n + 1) == Chain(g, g[y], n);
    }
  }
}
