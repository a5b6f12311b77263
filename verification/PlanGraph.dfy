/** The plan's dependency graph and its transitive reduction: `graph` of `sync_github.py`. */
module PlanGraph {
  import opened Common

  type Edges = map<string, seq<string>>

  /** A lookup of an unknown task or ancestor set, a failed self-check, or the reduced graph. */
  datatype Outcome = KeyError | RelationChanged | Reduced(edges: Edges)

  /** A path along dependencies, at least one edge long. */
  ghost predicate IsChain(edges: Edges, p: seq<string>) {
    |p| >= 2 && forall i :: 0 <= i < |p| - 1 ==> p[i] in edges && p[i + 1] in edges[p[i]]
  }

  /** `b` is an ancestor of `a`: some path of dependencies leads from `a` to `b`. */
  ghost predicate Reaches(edges: Edges, a: string, b: string) {
    exists p :: IsChain(edges, p) && p[0] == a && p[|p| - 1] == b
  }

  lemma ReachesStep(edges: Edges, a: string, b: string, c: string)
    requires a in edges && b in edges[a] && (b == c || Reaches(edges, b, c))
    ensures Reaches(edges, a, c)
  {
    if b == c {
      assert IsChain(edges, [a, b]);
    } else {
      var p :| IsChain(edges, p) && p[0] == b && p[|p| - 1] == c;
      assert IsChain(edges, [a] + p);
    }
  }

  lemma ReachesFirst(edges: Edges, a: string, c: string) returns (b: string)
    requires Reaches(edges, a, c)
    ensures a in edges && b in edges[a] && (b == c || Reaches(edges, b, c))
  {
    var p :| IsChain(edges, p) && p[0] == a && p[|p| - 1] == c;
    b := p[1];
    if |p| > 2 { assert IsChain(edges, p[1..]); }
  }

  lemma ReachesTransitive(edges: Edges, a: string, b: string, c: string)
    requires Reaches(edges, a, b) && Reaches(edges, b, c)
    ensures Reaches(edges, a, c)
  {
    var p :| IsChain(edges, p) && p[0] == a && p[|p| - 1] == b;
    var q :| IsChain(edges, q) && q[0] == b && q[|q| - 1] == c;
    assert IsChain(edges, p + q[1..]);
  }

  lemma ReachesMonotone(small: Edges, large: Edges, a: string, b: string)
    requires small.Keys <= large.Keys && forall k, d :: k in small && d in small[k] ==> d in large[k]
    requires Reaches(small, a, b)
    ensures Reaches(large, a, b)
  {
    var p :| IsChain(small, p) && p[0] == a && p[|p| - 1] == b;
    assert IsChain(large, p);
  }

  /** Every listed task is known and comes after all its dependencies. */
  ghost predicate DepsFirst(edges: Edges, order: seq<string>) {
    forall i :: 0 <= i < |order| ==> DepsBefore(edges, order, i)
  }

  ghost predicate DepsBefore(edges: Edges, order: seq<string>, i: nat)
    requires i < |order|
  {
    order[i] in edges && forall d :: d in edges[order[i]] ==> d in order[..i]
  }

  /** The sets are exactly the ancestors along the edges. */
  ghost predicate Exact(edges: Edges, anc: map<string, set<string>>) {
    forall k :: k in anc ==> k in edges && forall d :: d in anc[k] <==> Reaches(edges, k, d)
  }

  /** Ancestor sets in one sweep over the order; no value on a failed lookup. */
  method Ancestors(edges: Edges, order: seq<string>) returns (result: Option<map<string, set<string>>>)
    ensures result.Some? <==> DepsFirst(edges, order)
    ensures result.Some? ==> result.value.Keys == (set k | k in order) && Exact(edges, result.value)
  {
    var anc: map<string, set<string>> := map[];
    for i := 0 to |order|
      invariant forall j :: 0 <= j < i ==> DepsBefore(edges, order, j)
      invariant anc.Keys == (set k | k in order[..i]) && Exact(edges, anc)
    {
      var k := order[i];
      if k !in edges || !(forall d :: d in edges[k] ==> d in anc) {
        assert !DepsBefore(edges, order, i);
        return None;
      }
      var all := (set d | d in edges[k]) + (set d, a | d in edges[k] && a in anc[d] :: a);
      AncestorsOfDeps(edges, anc, k, all);
      anc := anc[k := all];
      assert order[..i + 1] == order[..i] + [k];
    }
    assert order[..|order|] == order;
    return Some(anc);
  }

  /** A task's ancestors are its dependencies and their ancestors. */
  lemma AncestorsOfDeps(edges: Edges, anc: map<string, set<string>>, k: string, all: set<string>)
    requires Exact(edges, anc) && k in edges && forall d :: d in edges[k] ==> d in anc
    requires all == (set d | d in edges[k]) + (set d, a | d in edges[k] && a in anc[d] :: a)
    ensures forall c :: c in all <==> Reaches(edges, k, c)
  {
    forall c ensures c in all <==> Reaches(edges, k, c) {
      if d :| d in edges[k] && (c == d || c in anc[d]) { ReachesStep(edges, k, d, c); }
      if Reaches(edges, k, c) { var d := ReachesFirst(edges, k, c); }
    }
  }

  /** `any(d in anc[x] for x in deps if x != d)`, from position `i`; no value on a failed lookup. */
  function Implied(deps: seq<string>, i: nat, d: string, anc: map<string, set<string>>): Option<bool>
    requires i <= |deps|
    decreases |deps| - i
  {
    if i == |deps| then Some(false)
    else if deps[i] == d then Implied(deps, i + 1, d, anc)
    else if deps[i] !in anc then None
    else if d in anc[deps[i]] then Some(true)
    else Implied(deps, i + 1, d, anc)
  }

  /** The dependencies that no other dependency implies, from position `i`. */
  function Keep(deps: seq<string>, i: nat, anc: map<string, set<string>>): Option<seq<string>>
    requires i <= |deps|
    decreases |deps| - i
  {
    if i == |deps| then Some([])
    else
      var implied := Implied(deps, 0, deps[i], anc);
      if implied.None? then None
      else
        var rest := Keep(deps, i + 1, anc);
        if rest.None? then None else Some((if implied.value then [] else [deps[i]]) + rest.value)
  }

  lemma {:induction false} ImpliedIff(deps: seq<string>, i: nat, d: string, anc: map<string, set<string>>)
    requires i <= |deps| && forall x :: x in deps ==> x in anc
    ensures Implied(deps, i, d, anc).Some?
    ensures Implied(deps, i, d, anc).value <==> exists x :: x in deps[i..] && x != d && x in anc && d in anc[x]
    decreases |deps| - i
  {
    if i == |deps| {
    } else {
      ImpliedIff(deps, i + 1, d, anc);
      assert deps[i..] == [deps[i]] + deps[i + 1..];
    }
  }

  /** Whether a dependency of the list is implied by another one. */
  ghost predicate Redundant(deps: seq<string>, d: string, anc: map<string, set<string>>) {
    exists x :: x in deps && x != d && x in anc && d in anc[x]
  }

  lemma {:induction false} KeepIff(deps: seq<string>, i: nat, anc: map<string, set<string>>)
    requires i <= |deps| && forall x :: x in deps ==> x in anc
    ensures Keep(deps, i, anc).Some?
    ensures forall d :: d in Keep(deps, i, anc).value <==> d in deps[i..] && !Redundant(deps, d, anc)
    ensures NoRepeats(deps) ==> NoRepeats(Keep(deps, i, anc).value)
    decreases |deps| - i
  {
    if i == |deps| {
    } else {
      KeepIff(deps, i + 1, anc);
      ImpliedIff(deps, 0, deps[i], anc);
      assert deps[0..] == deps;
      assert deps[i..] == [deps[i]] + deps[i + 1..];
      assert NoRepeats(deps) ==> deps[i] !in deps[i + 1..];
    }
  }

  // ----- the order -----

  ghost function Rank(order: seq<string>, k: string): nat
    requires k in order
  {
    if order[0] == k then 0 else 1 + Rank(order[1..], k)
  }

  lemma {:induction false} RankIsFirst(order: seq<string>, k: string)
    requires k in order
    ensures Rank(order, k) < |order| && order[Rank(order, k)] == k
    ensures forall j :: 0 <= j < Rank(order, k) ==> order[j] != k
  {
    if order[0] == k {
    } else {
      RankIsFirst(order[1..], k);
    }
  }

  lemma {:induction false} RankInPrefix(order: seq<string>, k: string, i: nat)
    requires i <= |order| && k in order[..i]
    ensures Rank(order, k) < i
  {
    RankIsFirst(order, k);
    var j :| 0 <= j < i && order[..i][j] == k;
  }

  lemma EdgeLowersRank(edges: Edges, order: seq<string>, k: string, d: string)
    requires DepsFirst(edges, order) && k in order && k in edges && d in edges[k]
    ensures d in order && Rank(order, d) < Rank(order, k)
  {
    RankIsFirst(order, k);
    assert DepsBefore(edges, order, Rank(order, k));
    RankInPrefix(order, d, Rank(order, k));
  }

  /** Dependencies come first, so no task is its own ancestor. */
  lemma {:induction false} ReachLowersRank(edges: Edges, order: seq<string>, a: string, b: string)
    requires DepsFirst(edges, order) && a in order && Reaches(edges, a, b)
    ensures b in order && Rank(order, b) < Rank(order, a)
    decreases Rank(order, a)
  {
    var d := ReachesFirst(edges, a, b);
    EdgeLowersRank(edges, order, a, d);
    if d == b {
    } else {
      ReachLowersRank(edges, order, d, b);
    }
  }

  lemma ListedDepsKnown(edges: Edges, order: seq<string>, k: string, d: string)
    requires DepsFirst(edges, order) && k in order
    ensures k in edges && (d in edges[k] ==> d in order)
  {
    var i :| 0 <= i < |order| && order[i] == k;
    assert DepsBefore(edges, order, i);
  }

  // ----- what the reduction step computes -----

  /** Some other dependency of the list already leads to `d`. */
  ghost predicate Superseded(edges: Edges, deps: seq<string>, d: string) {
    exists x :: x in deps && x != d && Reaches(edges, x, d)
  }

  /** The dependencies that nothing else in the list leads to, in their order. */
  ghost function Irredundant(edges: Edges, deps: seq<string>, i: nat): seq<string>
    requires i <= |deps|
    decreases |deps| - i
  {
    if i == |deps| then []
    else (if Superseded(edges, deps, deps[i]) then [] else [deps[i]]) + Irredundant(edges, deps, i + 1)
  }

  /** The lookup at position `j` fails: the task there is not listed, and no earlier one leads to `d`. */
  ghost predicate LookupFails(edges: Edges, order: seq<string>, deps: seq<string>, i: nat, d: string, j: nat) {
    && i <= j < |deps| && deps[j] != d && deps[j] !in order
    && forall h :: i <= h < j && deps[h] != d ==> !Reaches(edges, deps[h], d)
  }

  lemma {:induction false} ImpliedExactly(edges: Edges, order: seq<string>, anc: map<string, set<string>>,
                                          deps: seq<string>, i: nat, d: string)
    requires i <= |deps| && Exact(edges, anc) && anc.Keys == (set k | k in order)
    ensures Implied(deps, i, d, anc).None? <==> exists j :: LookupFails(edges, order, deps, i, d, j)
    ensures Implied(deps, i, d, anc).Some? ==> (Implied(deps, i, d, anc).value <==> Superseded(edges, deps[i..], d))
    decreases |deps| - i
  {
    if i == |deps| {
    } else {
      ImpliedExactly(edges, order, anc, deps, i + 1, d);
      assert deps[i..] == [deps[i]] + deps[i + 1..];
      if deps[i] == d || (deps[i] in anc && d !in anc[deps[i]]) {
        var next := i + 1;
        if j :| LookupFails(edges, order, deps, i, d, j) { assert LookupFails(edges, order, deps, next, d, j); }
        if j :| LookupFails(edges, order, deps, next, d, j) { assert LookupFails(edges, order, deps, i, d, j); }
      } else if deps[i] !in anc {
        assert LookupFails(edges, order, deps, i, d, i);
      }
    }
  }

  lemma {:induction false} KeepExactly(edges: Edges, order: seq<string>, anc: map<string, set<string>>,
                                       deps: seq<string>, i: nat)
    requires i <= |deps| && Exact(edges, anc) && anc.Keys == (set k | k in order)
    ensures Keep(deps, i, anc).None? <==>
              exists h, j :: i <= h < |deps| && LookupFails(edges, order, deps, 0, deps[h], j)
    ensures Keep(deps, i, anc).Some? ==> Keep(deps, i, anc).value == Irredundant(edges, deps, i)
    decreases |deps| - i
  {
    if i == |deps| {
    } else {
      KeepExactly(edges, order, anc, deps, i + 1);
      ImpliedExactly(edges, order, anc, deps, 0, deps[i]);
      assert deps[0..] == deps;
    }
  }

  /** A task whose reduction looks up a task that the order does not list. */
  ghost predicate Unresolvable(tasks: Edges, order: seq<string>, k: string) {
    k in tasks && exists h, j :: 0 <= h < |tasks[k]| && LookupFails(tasks, order, tasks[k], 0, tasks[k][h], j)
  }

  ghost predicate AllListed(edges: Edges, order: seq<string>, k: string) {
    k in edges && forall d :: d in edges[k] ==> d in order
  }

  ghost predicate OneName(deps: seq<string>) {
    forall i, j :: 0 <= i < |deps| && 0 <= j < |deps| ==> deps[i] == deps[j]
  }

  /** With dependencies first, only a task left out of the order can be unresolvable. */
  lemma ListedIsResolvable(tasks: Edges, order: seq<string>, k: string)
    requires DepsFirst(tasks, order) && k in order
    ensures AllListed(tasks, order, k) && !Unresolvable(tasks, order, k)
  {
    ListedDepsKnown(tasks, order, k, k);
    forall d | d in tasks[k] ensures d in order { ListedDepsKnown(tasks, order, k, d); }
  }

  /** The listed dependency that comes last in the order. */
  lemma {:induction false} LastListed(order: seq<string>, deps: seq<string>) returns (d: string)
    requires exists x :: x in deps && x in order
    ensures d in deps && d in order && forall x :: x in deps && x in order ==> Rank(order, x) <= Rank(order, d)
  {
    var n := |deps| - 1;
    assert deps == deps[..n] + [deps[n]];
    if exists x :: x in deps[..n] && x in order {
      d := LastListed(order, deps[..n]);
      if deps[n] in order && Rank(order, deps[n]) > Rank(order, d) { d := deps[n]; }
    } else {
      d := deps[n];
    }
  }

  lemma {:induction false} FirstUnlisted(order: seq<string>, deps: seq<string>) returns (j: nat)
    requires exists x :: x in deps && x !in order
    ensures j < |deps| && deps[j] !in order && forall h :: 0 <= h < j ==> deps[h] in order
  {
    j := 0;
    if deps[0] in order {
      assert deps == [deps[0]] + deps[1..];
      var rest := FirstUnlisted(order, deps[1..]);
      j := rest + 1;
      assert forall h :: 0 < h < j ==> deps[h] == deps[1..][h - 1];
    }
  }

  /** A task that the reduction resolves has all its dependencies listed, or only one of them. */
  lemma ResolvedIsListedOrOne(edges: Edges, order: seq<string>, k: string)
    requires DepsFirst(edges, order) && k in edges && !Unresolvable(edges, order, k)
    ensures AllListed(edges, order, k) || OneName(edges[k])
  {
    var deps := edges[k];
    if !AllListed(edges, order, k) {
      var j := FirstUnlisted(order, deps);
      if exists x :: x in deps && x in order {
        var d := LastListed(order, deps);
        var h :| 0 <= h < |deps| && deps[h] == d;
        forall i | 0 <= i < j ensures !Reaches(edges, deps[i], d) {
          if Reaches(edges, deps[i], d) { ReachLowersRank(edges, order, deps[i], d); }
        }
        assert LookupFails(edges, order, deps, 0, deps[h], j);
      } else if i :| 0 <= i < |deps| && deps[i] != deps[0] {
        UnlistedLookup(edges, order, deps, i);
      }
    }
  }

  lemma {:induction false} UnlistedLookup(edges: Edges, order: seq<string>, deps: seq<string>, i: nat)
    requires 0 < i < |deps| && deps[i] != deps[0] && forall x :: x in deps ==> x !in order
    ensures exists j :: LookupFails(edges, order, deps, 0, deps[0], j)
  {
    if h :| 0 < h < i && deps[h] != deps[0] {
      UnlistedLookup(edges, order, deps, h);
    } else {
      assert LookupFails(edges, order, deps, 0, deps[0], i);
    }
  }

  // ----- why reduction keeps the relation -----

  /** `reduced` is what the reduction step makes of `edges`: where all dependencies are listed it
      keeps exactly those that no other one implies, and elsewhere there is only one. */
  ghost predicate IsReduction(edges: Edges, order: seq<string>, reduced: Edges, anc: map<string, set<string>>) {
    && DepsFirst(edges, order) && Exact(edges, anc) && anc.Keys == (set k | k in order)
    && reduced.Keys == edges.Keys
    && (forall k, d :: k in edges && d in reduced[k] ==> d in edges[k])
    && (forall k, d :: AllListed(edges, order, k) ==>
        (d in reduced[k] <==> d in edges[k] && !Redundant(edges[k], d, anc)))
    && (forall k :: k in edges && !AllListed(edges, order, k) ==> reduced[k] == edges[k] && OneName(edges[k]))
  }

  lemma {:induction false} KeepIsSubset(deps: seq<string>, i: nat, anc: map<string, set<string>>)
    requires i <= |deps| && Keep(deps, i, anc).Some?
    ensures forall d :: d in Keep(deps, i, anc).value ==> d in deps
    decreases |deps| - i
  {
    if i == |deps| {
    } else {
      KeepIsSubset(deps, i + 1, anc);
    }
  }

  lemma {:induction false} OneNameIsKept(edges: Edges, deps: seq<string>, i: nat)
    requires i <= |deps| && OneName(deps)
    ensures Irredundant(edges, deps, i) == deps[i..]
    decreases |deps| - i
  {
    if i == |deps| {
    } else {
      OneNameIsKept(edges, deps, i + 1);
    }
  }

  /** The reduction step, where it resolves every task, does what `IsReduction` says. */
  lemma KeepIsReduction(edges: Edges, order: seq<string>, reduced: Edges, anc: map<string, set<string>>)
    requires DepsFirst(edges, order) && Exact(edges, anc) && anc.Keys == (set k | k in order)
    requires reduced.Keys == edges.Keys && forall k :: k in edges ==> Keep(edges[k], 0, anc) == Some(reduced[k])
    ensures IsReduction(edges, order, reduced, anc)
    ensures forall k :: k in edges && NoRepeats(edges[k]) ==> NoRepeats(reduced[k])
  {
    forall k | k in edges
      ensures forall d :: d in reduced[k] ==> d in edges[k]
      ensures AllListed(edges, order, k) ==>
                forall d :: d in reduced[k] <==> d in edges[k] && !Redundant(edges[k], d, anc)
      ensures !AllListed(edges, order, k) ==> reduced[k] == edges[k] && OneName(edges[k])
      ensures NoRepeats(edges[k]) ==> NoRepeats(reduced[k])
    {
      KeepIsSubset(edges[k], 0, anc);
      assert edges[k][0..] == edges[k];
      if AllListed(edges, order, k) {
        KeepIff(edges[k], 0, anc);
      } else {
        KeepExactly(edges, order, anc, edges[k], 0);
        ResolvedIsListedOrOne(edges, order, k);
        OneNameIsKept(edges, edges[k], 0);
      }
    }
  }

  lemma ReductionDepsFirst(edges: Edges, order: seq<string>, reduced: Edges, anc: map<string, set<string>>)
    requires IsReduction(edges, order, reduced, anc)
    ensures DepsFirst(reduced, order)
  {
    forall i | 0 <= i < |order| ensures DepsBefore(reduced, order, i) {
      assert DepsBefore(edges, order, i);
    }
  }

  /** The self-check compares ancestor sets that are the same. */
  lemma SelfCheckHolds(edges: Edges, order: seq<string>, reduced: Edges, anc: map<string, set<string>>,
                       again: map<string, set<string>>)
    requires IsReduction(edges, order, reduced, anc) && Exact(reduced, again) && again.Keys == anc.Keys
    ensures again == anc
  {
    forall k | k in anc ensures again[k] == anc[k] {
      forall c ensures c in again[k] <==> c in anc[k] {
        ReductionKeepsRelation(edges, order, reduced, anc, k, c);
      }
    }
  }

  /** From any dependency one climbs to a kept one that still implies it. */
  lemma {:induction false} Climb(edges: Edges, order: seq<string>, reduced: Edges, anc: map<string, set<string>>,
                                 k: string, x: string) returns (y: string)
    requires IsReduction(edges, order, reduced, anc) && AllListed(edges, order, k) && x in edges[k]
    ensures y in reduced[k] && (y == x || Reaches(edges, y, x))
    decreases |order| - Rank(order, x)
  {
    RankIsFirst(order, x);
    if x in reduced[k] {
      y := x;
    } else {
      var z :| z in edges[k] && z != x && z in anc && x in anc[z];
      ReachLowersRank(edges, order, z, x);
      RankIsFirst(order, z);
      y := Climb(edges, order, reduced, anc, k, z);
      if y != z { ReachesTransitive(edges, y, z, x); }
    }
  }

  /** Every ancestor of a listed task is still one along the kept edges. */
  lemma {:induction false} ListedReaches(edges: Edges, order: seq<string>, reduced: Edges,
                                         anc: map<string, set<string>>, k: string, c: string)
    requires IsReduction(edges, order, reduced, anc) && k in order && Reaches(edges, k, c)
    ensures Reaches(reduced, k, c)
    decreases Rank(order, k)
  {
    var d := ReachesFirst(edges, k, c);
    ListedIsResolvable(edges, order, k);
    var y := Climb(edges, order, reduced, anc, k, d);
    if y != d && d != c { ReachesTransitive(edges, y, d, c); }
    assert y == c || Reaches(edges, y, c);
    if y != c {
      EdgeLowersRank(edges, order, k, y);
      ListedReaches(edges, order, reduced, anc, y, c);
    }
    ReachesStep(reduced, k, y, c);
  }

  /** And so is every ancestor of any task, also where unlisted tasks depend on each other in a circle. */
  lemma {:induction false} ChainReaches(edges: Edges, order: seq<string>, reduced: Edges, anc: map<string, set<string>>,
                                        p: seq<string>)
    requires IsReduction(edges, order, reduced, anc) && IsChain(edges, p)
    ensures Reaches(reduced, p[0], p[|p| - 1])
    decreases |p|
  {
    var k, d, c := p[0], p[1], p[|p| - 1];
    if |p| > 2 { assert IsChain(edges, p[1..]); }
    assert d == c || Reaches(edges, d, c);
    if AllListed(edges, order, k) {
      var y := Climb(edges, order, reduced, anc, k, d);
      if y != d && d != c { ReachesTransitive(edges, y, d, c); }
      if y != c { ListedReaches(edges, order, reduced, anc, y, c); }
      ReachesStep(reduced, k, y, c);
    } else {
      if |p| > 2 { ChainReaches(edges, order, reduced, anc, p[1..]); }
      ReachesStep(reduced, k, d, c);
    }
  }

  /** The reduced graph has the same ancestors, for every task. */
  lemma ReductionKeepsRelation(edges: Edges, order: seq<string>, reduced: Edges, anc: map<string, set<string>>,
                               k: string, c: string)
    requires IsReduction(edges, order, reduced, anc)
    ensures Reaches(edges, k, c) <==> Reaches(reduced, k, c)
  {
    if Reaches(edges, k, c) {
      var p :| IsChain(edges, p) && p[0] == k && p[|p| - 1] == c;
      ChainReaches(edges, order, reduced, anc, p);
    }
    if Reaches(reduced, k, c) { ReachesMonotone(reduced, edges, k, c); }
  }

  /** The graph without one edge, given by its position in a task's list. */
  function Without(edges: Edges, k: string, i: nat): Edges
    requires k in edges && i < |edges[k]|
  {
    edges[k := edges[k][..i] + edges[k][i + 1..]]
  }

  /** No edge of the reduced graph can be dropped: without it an ancestor is lost. */
  lemma ReductionIsMinimal(edges: Edges, order: seq<string>, reduced: Edges, anc: map<string, set<string>>, k: string,
                           i: nat)
    requires IsReduction(edges, order, reduced, anc) && k in edges && i < |reduced[k]| && NoRepeats(reduced[k])
    ensures Reaches(edges, k, reduced[k][i]) && !Reaches(Without(reduced, k, i), k, reduced[k][i])
  {
    ReachesStep(edges, k, reduced[k][i], reduced[k][i]);
    if Reaches(Without(reduced, k, i), k, reduced[k][i]) {
      DetourImplies(edges, order, reduced, anc, k, i);
    }
  }

  /** A way around an edge starts with another one, which makes the edge redundant. */
  lemma DetourImplies(edges: Edges, order: seq<string>, reduced: Edges, anc: map<string, set<string>>, k: string,
                      i: nat)
    requires IsReduction(edges, order, reduced, anc) && k in edges && i < |reduced[k]| && NoRepeats(reduced[k])
    requires Reaches(Without(reduced, k, i), k, reduced[k][i])
    ensures AllListed(edges, order, k) && Redundant(edges[k], reduced[k][i], anc)
  {
    var d, fewer := reduced[k][i], Without(reduced, k, i);
    var x := ReachesFirst(fewer, k, d);
    assert x in reduced[k] && x != d;
    ReachesMonotone(fewer, edges, x, d);
  }

  /** `graph`: ancestors, reduction, and the self-check that the relation is unchanged. The self-check
      never fails. The result has the same ancestors, and none of its edges can be dropped. */
  method Graph(tasks: Edges, order: seq<string>) returns (r: Outcome)
    ensures !r.RelationChanged?
    ensures r.KeyError? <==> !DepsFirst(tasks, order) || exists k :: Unresolvable(tasks, order, k)
    ensures r.Reduced? ==> r.edges.Keys == tasks.Keys
    ensures r.Reduced? ==> forall k :: k in tasks ==> r.edges[k] == Irredundant(tasks, tasks[k], 0)
    ensures r.Reduced? ==> forall k, c :: Reaches(tasks, k, c) <==> Reaches(r.edges, k, c)
    ensures r.Reduced? ==> forall k, i :: k in tasks && NoRepeats(tasks[k]) && 0 <= i < |r.edges[k]| ==>
                             !Reaches(Without(r.edges, k, i), k, r.edges[k][i])
  {
    var found := Ancestors(tasks, order);
    if found.None? { return KeyError; }
    var anc := found.value;
    forall k | k in tasks
      ensures Keep(tasks[k], 0, anc).None? <==> Unresolvable(tasks, order, k)
      ensures Keep(tasks[k], 0, anc).Some? ==> Keep(tasks[k], 0, anc).value == Irredundant(tasks, tasks[k], 0)
    {
      KeepExactly(tasks, order, anc, tasks[k], 0);
    }
    if !(forall k :: k in tasks ==> Keep(tasks[k], 0, anc).Some?) { return KeyError; }
    var reduced := map k | k in tasks :: Keep(tasks[k], 0, anc).value;
    KeepIsReduction(tasks, order, reduced, anc);
    ReductionDepsFirst(tasks, order, reduced, anc);
    var again := Ancestors(reduced, order);
    SelfCheckHolds(tasks, order, reduced, anc, again.value);
    forall k, c ensures Reaches(tasks, k, c) <==> Reaches(reduced, k, c) {
      ReductionKeepsRelation(tasks, order, reduced, anc, k, c);
    }
    forall k, i | k in tasks && NoRepeats(tasks[k]) && 0 <= i < |reduced[k]|
      ensures !Reaches(Without(reduced, k, i), k, reduced[k][i])
    {
      ReductionIsMinimal(tasks, order, reduced, anc, k, i);
    }
    r := if again.None? then KeyError else if again.value != anc then RelationChanged else Reduced(reduced);
  }
}
