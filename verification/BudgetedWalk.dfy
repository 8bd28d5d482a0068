/** A pre-order walk of an arbitrary, possibly cyclic, graph under a depth limit and a visit budget. */
module BudgetedWalk {
  import opened LocationMaps

  const MAX_DEPTH := 4

  const MAX_NODES := 100

  /** The values below a value, and what a visited value says about locations. */
  datatype Graph<!V> = Graph(children: V -> seq<V>, facts: V -> seq<Location>)

  /** The values of the unfolding down to depth 4, parents before children, without any budget. */
  function Preorder<V>(g: Graph<V>, v: V, depth: nat): seq<V>
    decreases MAX_DEPTH + 1 - depth, 0
  {
    if depth > MAX_DEPTH then [] else [v] + PreorderAll(g, g.children(v), depth + 1)
  }

  function PreorderAll<V>(g: Graph<V>, vs: seq<V>, depth: nat): seq<V>
    decreases MAX_DEPTH + 1 - depth, 1, |vs|
  {
    if vs == [] then [] else PreorderAll(g, vs[..|vs| - 1], depth) + Preorder(g, vs[|vs| - 1], depth)
  }

  function AllFacts<V>(g: Graph<V>, vs: seq<V>): seq<Location> {
    if vs == [] then [] else AllFacts(g, vs[..|vs| - 1]) + g.facts(vs[|vs| - 1])
  }

  function Min(a: int, b: int): int { if a < b then a else b }

  /** What a budget of `left` visits sees of a list of values. */
  function Affordable<V>(vs: seq<V>, left: int): seq<V>
    requires left >= 0
  {
    vs[..Min(|vs|, left)]
  }

  lemma AffordableAll<V>(vs: seq<V>, left: int)
    requires |vs| <= left
    ensures Affordable(vs, left) == vs
  {}

  lemma AffordableAppend<V>(a: seq<V>, b: seq<V>, left: int)
    requires left >= 0
    ensures var x := Affordable(a, left);
            Affordable(a + b, left) == x + Affordable(b, left - |x|)
    ensures |Affordable(a, left)| == left ==> Affordable(a + b, left) == Affordable(a, left)
  {}

  /** A walk over `vs` that starts with `from` visits made: what it visits and adds. */
  ghost predicate Walked<V>(g: Graph<V>, vs: seq<V>, from: nat, to: nat, before: seq<Entry>, after: seq<Entry>) {
    && from <= MAX_NODES
    && to == from + |Affordable(vs, MAX_NODES - from)|
    && after == InsertAll(before, AllFacts(g, Affordable(vs, MAX_NODES - from)))
  }

  lemma {:induction false} AllFactsAppend<V>(g: Graph<V>, a: seq<V>, b: seq<V>)
    ensures AllFacts(g, a + b) == AllFacts(g, a) + AllFacts(g, b)
  {
    if b == [] {
      assert a + b == a;
    } else {
      var c, v := b[..|b| - 1], b[|b| - 1];
      AllFactsAppend(g, a, c);
      assert a + b == (a + c) + [v] && b == c + [v];
    }
  }

  lemma WalkedMore<V>(g: Graph<V>, a: seq<V>, b: seq<V>, from: nat, mid: nat, to: nat,
                      es: seq<Entry>, fs: seq<Entry>, gs: seq<Entry>)
    requires Walked(g, a, from, mid, es, fs) && Walked(g, b, mid, to, fs, gs)
    ensures Walked(g, a + b, from, to, es, gs)
  {
    var x, y := Affordable(a, MAX_NODES - from), Affordable(b, MAX_NODES - mid);
    AffordableAppend(a, b, MAX_NODES - from);
    AllFactsAppend(g, x, y);
    InsertAllAppend(es, AllFacts(g, x), AllFacts(g, y));
  }

  lemma WalkedNode<V>(g: Graph<V>, v: V, below: seq<V>, from: nat, mid: nat, to: nat,
                      es: seq<Entry>, fs: seq<Entry>, gs: seq<Entry>)
    requires mid == from + 1 <= MAX_NODES && fs == InsertAll(es, g.facts(v)) && Walked(g, below, mid, to, fs, gs)
    ensures Walked(g, [v] + below, from, to, es, gs)
  {
    AffordableAll([v], MAX_NODES - from);
    assert [] + [v] == [v] && AllFacts(g, [v]) == g.facts(v);
    WalkedMore(g, [v], below, from, mid, to, es, fs, gs);
  }

  lemma {:induction false} PreorderAllGrows<V>(g: Graph<V>, a: seq<V>, b: seq<V>, all: seq<V>, depth: nat)
    returns (more: seq<V>)
    requires all == a + b
    ensures PreorderAll(g, all, depth) == PreorderAll(g, a, depth) + more
    decreases |b|
  {
    if b == [] {
      assert all == a;
      more := [];
    } else {
      var m := PreorderAllGrows(g, a + [b[0]], b[1..], all, depth);
      more := Preorder(g, b[0], depth) + m;
    }
  }

  /** One more child walked. */
  lemma WalkedChild<V>(g: Graph<V>, seen: seq<V>, child: V, depth: nat, from: nat, mid: nat, to: nat,
                       es: seq<Entry>, fs: seq<Entry>, gs: seq<Entry>)
    requires Walked(g, PreorderAll(g, seen, depth), from, mid, es, fs)
           && Walked(g, Preorder(g, child, depth), mid, to, fs, gs)
    ensures Walked(g, PreorderAll(g, seen + [child], depth), from, to, es, gs)
  {
    WalkedMore(g, PreorderAll(g, seen, depth), Preorder(g, child, depth), from, mid, to, es, fs, gs);
  }

  /** With the budget gone, the walk of the first children is the walk of all. */
  lemma WalkedEnough<V>(g: Graph<V>, seen: seq<V>, rest: seq<V>, depth: nat, from: nat, to: nat, es: seq<Entry>,
                        fs: seq<Entry>)
    requires to >= MAX_NODES && Walked(g, PreorderAll(g, seen, depth), from, to, es, fs)
    ensures Walked(g, PreorderAll(g, seen + rest, depth), from, to, es, fs)
  {
    var more := PreorderAllGrows(g, seen, rest, seen + rest, depth);
    AffordableAppend(PreorderAll(g, seen, depth), more, MAX_NODES - from);
  }

  lemma WalkedItem<V>(g: Graph<V>, items: seq<V>, i: nat, depth: nat, from: nat, mid: nat, to: nat,
                      es: seq<Entry>, fs: seq<Entry>, gs: seq<Entry>)
    requires i < |items|
    requires Walked(g, PreorderAll(g, items[..i], depth), from, mid, es, fs)
    requires Walked(g, Preorder(g, items[i], depth), mid, to, fs, gs)
    ensures Walked(g, PreorderAll(g, items[..i + 1], depth), from, to, es, gs)
  {
    var seen, next := items[..i], items[..i + 1];
    assert next == seen + [items[i]];
    WalkedChild(g, seen, items[i], depth, from, mid, to, es, fs, gs);
  }

  lemma WalkedItems<V>(g: Graph<V>, items: seq<V>, i: nat, depth: nat, from: nat, to: nat, es: seq<Entry>,
                       fs: seq<Entry>)
    requires i <= |items| && to >= MAX_NODES && Walked(g, PreorderAll(g, items[..i], depth), from, to, es, fs)
    ensures Walked(g, PreorderAll(g, items, depth), from, to, es, fs)
  {
    var seen, rest := items[..i], items[i..];
    assert items == seen + rest;
    WalkedEnough(g, seen, rest, depth, from, to, es, fs);
  }

  // ---------------------------------------------------------------- reachability

  /** u can be reached from v in n steps down. */
  ghost predicate ReachesIn<V>(g: Graph<V>, v: V, u: V, n: nat)
    decreases n
  {
    if n == 0 then u == v else exists c :: c in g.children(v) && ReachesIn(g, c, u, n - 1)
  }

  ghost predicate ReachesWithin<V>(g: Graph<V>, v: V, u: V, limit: int) {
    exists n: nat :: n <= limit && ReachesIn(g, v, u, n)
  }

  lemma {:induction false} PreorderAllMember<V>(g: Graph<V>, vs: seq<V>, depth: nat, u: V)
    ensures u in PreorderAll(g, vs, depth) <==> exists c :: c in vs && u in Preorder(g, c, depth)
  {
    if vs != [] {
      var before, last := vs[..|vs| - 1], vs[|vs| - 1];
      PreorderAllMember(g, before, depth, u);
      assert last in vs && forall c :: c in before ==> c in vs;
      if c :| c in vs && u in Preorder(g, c, depth) { assert c != last ==> c in before; }
    }
  }

  lemma ReachesStep<V>(g: Graph<V>, v: V, u: V, limit: int)
    requires limit >= 0
    ensures ReachesWithin(g, v, u, limit)
            <==> u == v || exists c :: c in g.children(v) && ReachesWithin(g, c, u, limit - 1)
  {
    if n: nat :| n <= limit && ReachesIn(g, v, u, n) {
      if n > 0 {
        var c :| c in g.children(v) && ReachesIn(g, c, u, n - 1);
        assert ReachesWithin(g, c, u, limit - 1);
      }
    }
    if c :| c in g.children(v) && ReachesWithin(g, c, u, limit - 1) {
      var n: nat :| n <= limit - 1 && ReachesIn(g, c, u, n);
      assert ReachesIn(g, v, u, n + 1);
    }
    assert u == v ==> ReachesIn(g, v, u, 0);
  }

  /** Cycles or not, the unfolding lists exactly the values within the remaining depth. */
  lemma {:induction false} PreorderReaches<V>(g: Graph<V>, v: V, depth: nat, u: V)
    requires depth <= MAX_DEPTH + 1
    ensures u in Preorder(g, v, depth) <==> ReachesWithin(g, v, u, MAX_DEPTH - depth)
    decreases MAX_DEPTH + 1 - depth
  {
    if depth <= MAX_DEPTH {
      var children := g.children(v);
      PreorderAllMember(g, children, depth + 1, u);
      ReachesStep(g, v, u, MAX_DEPTH - depth);
      forall c | c in children
        ensures u in Preorder(g, c, depth + 1) <==> ReachesWithin(g, c, u, MAX_DEPTH - depth - 1)
      {
        PreorderReaches(g, c, depth + 1, u);
      }
    }
  }

  lemma {:induction false} AllFactsMember<V>(g: Graph<V>, vs: seq<V>, l: Location)
    ensures l in AllFacts(g, vs) <==> exists v :: v in vs && l in g.facts(v)
  {
    if vs != [] {
      var before, last := vs[..|vs| - 1], vs[|vs| - 1];
      AllFactsMember(g, before, l);
      assert forall v :: v in vs <==> v in before || v == last;
    }
  }

  /** What a walk from v with a fresh budget visits. */
  function BudgetedVisits<V>(g: Graph<V>, v: V): seq<V> { Affordable(Preorder(g, v, 0), MAX_NODES) }

  /** The facts that it adds. */
  function BudgetedFacts<V>(g: Graph<V>, v: V): seq<Location> { AllFacts(g, BudgetedVisits(g, v)) }

  /** It visits at most a hundred values, and reports no fact that the unlimited traversal would not meet. */
  lemma BudgetedIsSound<V>(g: Graph<V>, v: V, l: Location)
    ensures |BudgetedVisits(g, v)| <= 100
    ensures l in BudgetedFacts(g, v) ==>
              exists u :: u in BudgetedVisits(g, v) && ReachesWithin(g, v, u, 4) && l in g.facts(u)
  {
    if l in BudgetedFacts(g, v) {
      AllFactsMember(g, BudgetedVisits(g, v), l);
      var u :| u in BudgetedVisits(g, v) && l in g.facts(u);
      assert u in Preorder(g, v, 0);
      PreorderReaches(g, v, 0, u);
    }
  }

  /** On a value with at most a hundred nodes within depth four, it misses no fact within that depth. */
  lemma BudgetedIsComplete<V>(g: Graph<V>, v: V, u: V, l: Location)
    requires |Preorder(g, v, 0)| <= 100 && ReachesWithin(g, v, u, 4) && l in g.facts(u)
    ensures l in BudgetedFacts(g, v)
  {
    var all := Preorder(g, v, 0);
    PreorderReaches(g, v, 0, u);
    AffordableAll(all, MAX_NODES);
    AllFactsMember(g, all, l);
  }
}
