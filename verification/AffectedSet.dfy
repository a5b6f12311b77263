/** The affected set of a change: `BuildGraph::affected` of `affected/mod.rs`. */
module AffectedSet {
  import opened Common

  datatype Ecosystem = Cargo | Pnpm | Turbo | Unknown(hint: string)
  datatype Package = Package(name: string, path: string, directDeps: seq<string>)
  datatype BuildGraph = BuildGraph(ecosystem: Ecosystem, packages: seq<Package>, rootManifests: seq<string>)

  datatype Reason = RootManifestEdited(path: string) | UnknownEcosystem(hint: string)
  datatype Result = Result(packages: set<string>, isFullSet: bool, reason: Option<Reason>)

  /** `text.contains(part)`. */
  predicate Contains(text: string, part: string) {
    part <= text || (text != [] && Contains(text[1..], part))
  }

  /** `part` stands in `text` from position `i` on. */
  predicate StandsAt(text: string, part: string, i: nat) {
    i + |part| <= |text| && text[i..i + |part|] == part
  }

  /** A text contains exactly its slices. */
  lemma {:induction false} ContainsIff(text: string, part: string)
    ensures Contains(text, part) <==> exists i: nat :: StandsAt(text, part, i)
  {
    assert part <= text <==> StandsAt(text, part, 0);
    if text == "" {
    } else {
      ContainsIff(text[1..], part);
      forall i: nat | StandsAt(text[1..], part, i) ensures StandsAt(text, part, i + 1) {
        assert text[i + 1..i + 1 + |part|] == text[1..][i..i + |part|];
      }
      forall i: nat | i > 0 && StandsAt(text, part, i) ensures StandsAt(text[1..], part, i - 1) {
        assert text[1..][i - 1..i - 1 + |part|] == text[i..i + |part|];
      }
    }
  }

  function AllNames(g: BuildGraph): set<string> {
    set i | 0 <= i < |g.packages| :: g.packages[i].name
  }

  /** Package `p` depends directly on package `q`. */
  predicate DependsOn(g: BuildGraph, p: string, q: string) { DependsAmong(g, |g.packages|, p, q) }

  /** The same, looking at the first `n` packages only. */
  predicate DependsAmong(g: BuildGraph, n: nat, p: string, q: string)
    requires n <= |g.packages|
  {
    exists i :: 0 <= i < n && g.packages[i].name == p && q in g.packages[i].directDeps
  }

  /** A package owns the changed paths that start with its own path. */
  predicate Owns(g: BuildGraph, p: string, path: string) {
    exists i :: 0 <= i < |g.packages| && g.packages[i].name == p && g.packages[i].path <= path
  }

  predicate IsSeed(g: BuildGraph, changed: seq<string>, p: string) {
    exists k :: 0 <= k < |changed| && Owns(g, p, changed[k])
  }

  predicate TouchesRoot(g: BuildGraph, path: string) {
    exists m :: 0 <= m < |g.rootManifests| && (Contains(path, g.rootManifests[m]) || Contains(g.rootManifests[m], path))
  }

  /** A changed path touches the root exactly when one of the two texts, path and some root manifest,
      is a slice of the other. */
  lemma TouchesRootIff(g: BuildGraph, path: string)
    ensures TouchesRoot(g, path) <==>
              exists m, i: nat :: 0 <= m < |g.rootManifests| &&
                (StandsAt(path, g.rootManifests[m], i) || StandsAt(g.rootManifests[m], path, i))
  {
    forall m | 0 <= m < |g.rootManifests|
      ensures Contains(path, g.rootManifests[m]) <==> exists i: nat :: StandsAt(path, g.rootManifests[m], i)
      ensures Contains(g.rootManifests[m], path) <==> exists i: nat :: StandsAt(g.rootManifests[m], path, i)
    {
      ContainsIff(path, g.rootManifests[m]);
      ContainsIff(g.rootManifests[m], path);
    }
  }

  predicate FullSetRule(g: BuildGraph, changed: seq<string>) {
    g.ecosystem.Unknown? || exists k :: 0 <= k < |changed| && TouchesRoot(g, changed[k])
  }

  ghost predicate Closed(g: BuildGraph, s: set<string>) {
    forall p, q :: q in s && DependsOn(g, p, q) ==> p in s
  }

  ghost predicate HasSeeds(g: BuildGraph, changed: seq<string>, s: set<string>) {
    forall p :: IsSeed(g, changed, p) ==> p in s
  }

  /** The least set that holds the owners of the changed paths and every dependent of a member. */
  ghost predicate IsLeast(g: BuildGraph, changed: seq<string>, s: set<string>) {
    && HasSeeds(g, changed, s) && Closed(g, s)
    && forall t: set<string> :: Closed(g, t) && HasSeeds(g, changed, t) ==> s <= t
  }

  /** What `affected` promises of its result. */
  ghost predicate IsAffectedResult(g: BuildGraph, changed: seq<string>, r: Result) {
    && (r.isFullSet <==> FullSetRule(g, changed))
    && (r.isFullSet ==> r.packages == AllNames(g) && r.reason.Some?)
    && (!r.isFullSet ==> IsLeast(g, changed, r.packages) && r.reason.None?)
    && (g.ecosystem.Unknown? ==> r.reason == Some(UnknownEcosystem(g.ecosystem.hint)))
    && (r.isFullSet && !g.ecosystem.Unknown? ==>
        exists k :: 0 <= k < |changed| && r.reason == Some(RootManifestEdited(changed[k])) &&
          TouchesRoot(g, changed[k]) &&
          forall j :: 0 <= j < k ==> !TouchesRoot(g, changed[j]))
  }

  predicate Lists(rev: map<string, seq<string>>, p: string, q: string) { q in rev && p in rev[q] }

  /** The reverse index: for each name, the packages that depend on it. */
  method ReverseIndex(g: BuildGraph) returns (rev: map<string, seq<string>>)
    ensures forall p, q :: Lists(rev, p, q) <==> DependsOn(g, p, q)
  {
    rev := map[];
    for i := 0 to |g.packages|
      invariant forall p, q :: Lists(rev, p, q) <==> DependsAmong(g, i, p, q)
    {
      ghost var before := rev;
      var pkg := g.packages[i];
      for j := 0 to |pkg.directDeps|
        invariant forall p, q :: Lists(rev, p, q) <==>
                    Lists(before, p, q) || (p == pkg.name && q in pkg.directDeps[..j])
      {
        var dep := pkg.directDeps[j];
        rev := rev[dep := (if dep in rev then rev[dep] else []) + [pkg.name]];
        assert pkg.directDeps[..j + 1] == pkg.directDeps[..j] + [dep];
      }
      assert pkg.directDeps[..|pkg.directDeps|] == pkg.directDeps;
      forall p, q
        ensures DependsAmong(g, i + 1, p, q) <==> DependsAmong(g, i, p, q) || (p == pkg.name && q in pkg.directDeps)
      {
        assert g.packages[i] == pkg;
      }
    }
  }

  /** The owners of the changed paths, each once. */
  method Seeds(g: BuildGraph, changed: seq<string>) returns (seeds: seq<string>)
    ensures forall p :: p in seeds <==> IsSeed(g, changed, p)
  {
    seeds := [];
    for k := 0 to |changed|
      invariant forall p :: p in seeds <==> exists j :: 0 <= j < k && Owns(g, p, changed[j])
    {
      ghost var before := seeds;
      for i := 0 to |g.packages|
        invariant forall p :: p in seeds <==> (p in before ||
                    exists j :: 0 <= j < i && g.packages[j].name == p && g.packages[j].path <= changed[k])
      {
        if g.packages[i].path <= changed[k] && g.packages[i].name !in seeds {
          seeds := seeds + [g.packages[i].name];
        }
      }
    }
  }

  /** Names met by the search so far belong to every closed set with the seeds. */
  ghost predicate Needed(g: BuildGraph, changed: seq<string>, met: seq<string>, found: set<string>) {
    forall t: set<string> :: Closed(g, t) && HasSeeds(g, changed, t) ==> found <= t && forall p :: p in met ==> p in t
  }

  /** Breadth-first search over the reverse index. */
  method Search(g: BuildGraph, changed: seq<string>, rev: map<string, seq<string>>, seeds: seq<string>)
    returns (affected: set<string>)
    requires forall p, q :: Lists(rev, p, q) <==> DependsOn(g, p, q)
    requires forall p :: p in seeds <==> IsSeed(g, changed, p)
    ensures IsLeast(g, changed, affected)
  {
    affected := {};
    var queue := seeds;
    while queue != []
      invariant forall p :: p in queue ==> p in AllNames(g)
      invariant forall p :: p in seeds ==> p in affected || p in queue
      invariant forall p, q :: q in affected && DependsOn(g, p, q) ==> p in affected || p in queue
      invariant Needed(g, changed, queue, affected)
      decreases AllNames(g) - affected, |queue|
    {
      var name := queue[0];
      ghost var rest := queue[1..];
      queue := queue[1..];
      if name !in affected {
        affected := affected + {name};
        if name in rev {
          var dependents := rev[name];
          for i := 0 to |dependents|
            invariant rest <= queue
            invariant forall p :: p in queue ==> p in rest || (p in dependents && DependsOn(g, p, name))
            invariant forall p :: p in dependents[..i] ==> p in affected || p in queue
          {
            assert dependents[..i + 1] == dependents[..i] + [dependents[i]];
            if dependents[i] !in affected {
              queue := queue + [dependents[i]];
            }
          }
          assert dependents[..|dependents|] == dependents;
        }
      }
    }
  }

  /** `affected`: the full-set rules first, then the search. */
  method Affected(g: BuildGraph, changed: seq<string>) returns (r: Result)
    ensures IsAffectedResult(g, changed, r)
  {
    if g.ecosystem.Unknown? {
      return Result(AllNames(g), true, Some(UnknownEcosystem(g.ecosystem.hint)));
    }
    for k := 0 to |changed|
      invariant forall j :: 0 <= j < k ==> !TouchesRoot(g, changed[j])
    {
      for m := 0 to |g.rootManifests|
        invariant forall j :: 0 <= j < m ==>
                    !Contains(changed[k], g.rootManifests[j]) && !Contains(g.rootManifests[j], changed[k])
      {
        if Contains(changed[k], g.rootManifests[m]) || Contains(g.rootManifests[m], changed[k]) {
          assert TouchesRoot(g, changed[k]);
          return Result(AllNames(g), true, Some(RootManifestEdited(changed[k])));
        }
      }
    }
    var rev := ReverseIndex(g);
    var seeds := Seeds(g, changed);
    var affected := Search(g, changed, rev, seeds);
    return Result(affected, false, None);
  }

  // ----- what the least set is, and how it behaves -----

  /** A chain of dependents that starts at a seed: each package depends on the one before. */
  ghost predicate IsDependentChain(g: BuildGraph, changed: seq<string>, c: seq<string>) {
    c != [] && IsSeed(g, changed, c[0]) && forall i :: 0 < i < |c| ==> DependsOn(g, c[i], c[i - 1])
  }

  ghost predicate TransitiveDependent(g: BuildGraph, changed: seq<string>, p: string) {
    exists c :: IsDependentChain(g, changed, c) && c[|c| - 1] == p
  }

  lemma {:induction false} ChainStaysInside(g: BuildGraph, changed: seq<string>, s: set<string>, c: seq<string>)
    requires Closed(g, s) && HasSeeds(g, changed, s) && IsDependentChain(g, changed, c)
    ensures c[|c| - 1] in s
    decreases |c|
  {
    if |c| == 1 {
    } else {
      ChainStaysInside(g, changed, s, c[..|c| - 1]);
    }
  }

  lemma SeedIsDependent(g: BuildGraph, changed: seq<string>, p: string)
    requires IsSeed(g, changed, p)
    ensures p in AllNames(g) && TransitiveDependent(g, changed, p)
  {
    assert IsDependentChain(g, changed, [p]);
  }

  lemma DependentOfDependent(g: BuildGraph, changed: seq<string>, p: string, q: string)
    requires TransitiveDependent(g, changed, q) && DependsOn(g, p, q)
    ensures p in AllNames(g) && TransitiveDependent(g, changed, p)
  {
    var c :| IsDependentChain(g, changed, c) && c[|c| - 1] == q;
    assert IsDependentChain(g, changed, c + [p]);
  }

  /** The least set is exactly the owners of changed paths and all their transitive dependents. */
  lemma LeastIsTransitiveDependents(g: BuildGraph, changed: seq<string>, s: set<string>, p: string)
    requires IsLeast(g, changed, s)
    ensures p in s <==> TransitiveDependent(g, changed, p)
  {
    var t := set x | x in AllNames(g) && TransitiveDependent(g, changed, x);
    forall x | IsSeed(g, changed, x) ensures x in t { SeedIsDependent(g, changed, x); }
    forall x, y | y in t && DependsOn(g, x, y) ensures x in t { DependentOfDependent(g, changed, x, y); }
    assert Closed(g, t) && HasSeeds(g, changed, t);
    if c :| IsDependentChain(g, changed, c) && c[|c| - 1] == p { ChainStaysInside(g, changed, s, c); }
  }

  lemma SeedsOfUnion(g: BuildGraph, a: seq<string>, b: seq<string>, p: string)
    ensures IsSeed(g, a + b, p) <==> IsSeed(g, a, p) || IsSeed(g, b, p)
  {
    if IsSeed(g, a, p) {
      var k :| 0 <= k < |a| && Owns(g, p, a[k]);
      assert (a + b)[k] == a[k];
    }
    if IsSeed(g, b, p) {
      var k :| 0 <= k < |b| && Owns(g, p, b[k]);
      assert (a + b)[|a| + k] == b[k];
    }
  }

  /** The affected set of two changes together is the union of their affected sets. */
  lemma AffectedDistributes(g: BuildGraph, a: seq<string>, b: seq<string>, sa: set<string>, sb: set<string>,
                            s: set<string>)
    requires IsLeast(g, a, sa) && IsLeast(g, b, sb) && IsLeast(g, a + b, s)
    ensures s == sa + sb
  {
    forall p ensures IsSeed(g, a + b, p) <==> IsSeed(g, a, p) || IsSeed(g, b, p) {
      SeedsOfUnion(g, a, b, p);
    }
    assert Closed(g, sa + sb) && HasSeeds(g, a + b, sa + sb);
    assert HasSeeds(g, a, s) && HasSeeds(g, b, s);
  }

  lemma LeastWithinNames(g: BuildGraph, changed: seq<string>, s: set<string>)
    requires IsLeast(g, changed, s)
    ensures s <= AllNames(g)
  {
    assert Closed(g, AllNames(g));
    assert HasSeeds(g, changed, AllNames(g));
  }

  /** More changed paths never shrink the result, across all the rules. */
  lemma AffectedIsMonotone(g: BuildGraph, a: seq<string>, b: seq<string>, ra: Result, rb: Result)
    requires IsAffectedResult(g, a, ra) && IsAffectedResult(g, b, rb)
    requires forall path :: path in a ==> path in b
    ensures ra.packages <= rb.packages
  {
    if !ra.isFullSet { LeastWithinNames(g, a, ra.packages); }
    if ra.isFullSet && !g.ecosystem.Unknown? {
      var k :| 0 <= k < |a| && TouchesRoot(g, a[k]);
      assert a[k] in b;
    }
    if !rb.isFullSet {
      forall p | IsSeed(g, a, p) ensures p in rb.packages {
        var k :| 0 <= k < |a| && Owns(g, p, a[k]);
        assert a[k] in b;
        assert IsSeed(g, b, p);
      }
      assert HasSeeds(g, a, rb.packages);
    }
  }
}
