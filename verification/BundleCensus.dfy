/** The checkout bundle census: which emitted modules start-up reaches, and their sizes. */
module BundleCensus {
  import opened Wrappers
  import opened Sequences

  datatype Edge = Edge(path: string, isDynamic: bool)

  /** The imports of every emitted module; keys are the emitted files. */
  type Imports = map<string, seq<Edge>>

  predicate Follows(e: Edge, includeDynamic: bool)
  {
    !e.isDynamic || includeDynamic
  }

  /** The importer imports the module, statically unless dynamic imports count too. */
  ghost predicate Imported(imports: Imports, includeDynamic: bool, importer: string, path: string)
  {
    importer in imports &&
    exists e :: e in imports[importer] && e.path == path && (e.isDynamic ==> includeDynamic)
  }

  /** A chain of imports from an entry of the page to `path`, which itself may be missing. */
  ghost predicate IsChain(roots: seq<string>, imports: Imports, includeDynamic: bool, chain: seq<string>, path: string)
  {
    && chain != [] && chain[0] in roots && chain[|chain| - 1] == path
    && forall i :: 0 <= i < |chain| - 1 ==> Imported(imports, includeDynamic, chain[i], chain[i + 1])
  }

  ghost predicate Reachable(roots: seq<string>, imports: Imports, includeDynamic: bool, path: string)
  {
    exists chain :: IsChain(roots, imports, includeDynamic, chain, path)
  }

  /** Some module that is reachable was not emitted. */
  ghost predicate MissesModule(roots: seq<string>, imports: Imports, includeDynamic: bool)
  {
    exists p :: Reachable(roots, imports, includeDynamic, p) && p !in imports
  }

  lemma RootIsReachable(roots: seq<string>, imports: Imports, includeDynamic: bool, path: string)
    requires path in roots
    ensures Reachable(roots, imports, includeDynamic, path)
  {
    assert IsChain(roots, imports, includeDynamic, [path], path);
  }

  lemma ImportedIsReachable(roots: seq<string>, imports: Imports, includeDynamic: bool, importer: string, path: string)
    requires Reachable(roots, imports, includeDynamic, importer)
    requires Imported(imports, includeDynamic, importer, path)
    ensures Reachable(roots, imports, includeDynamic, path)
  {
    var chain :| IsChain(roots, imports, includeDynamic, chain, importer);
    assert IsChain(roots, imports, includeDynamic, chain + [path], path);
  }

  /** A set that holds the roots and the imports of its members holds everything reachable. */
  lemma {:induction false} ClosedHoldsChain(roots: seq<string>, imports: Imports, includeDynamic: bool,
                                            closed: set<string>, chain: seq<string>, path: string)
    requires forall r :: r in roots ==> r in closed
    requires forall p, q :: p in closed && Imported(imports, includeDynamic, p, q) ==> q in closed
    requires IsChain(roots, imports, includeDynamic, chain, path)
    ensures path in closed
  {
    if |chain| > 1 {
      var front := chain[..|chain| - 1];
      assert IsChain(roots, imports, includeDynamic, front, front[|front| - 1]);
      ClosedHoldsChain(roots, imports, includeDynamic, closed, front, front[|front| - 1]);
    }
  }

  /** Whatever static imports reach, imports of both kinds reach. */
  lemma StaticIsDynamic(roots: seq<string>, imports: Imports, path: string)
    requires Reachable(roots, imports, false, path)
    ensures Reachable(roots, imports, true, path)
  {
    var chain :| IsChain(roots, imports, false, chain, path);
    forall i | 0 <= i < |chain| - 1 ensures Imported(imports, true, chain[i], chain[i + 1]) {
      assert Imported(imports, false, chain[i], chain[i + 1]);
    }
    assert IsChain(roots, imports, true, chain, path);
  }

  ghost predicate AllReachable(roots: seq<string>, imports: Imports, includeDynamic: bool, paths: seq<string>)
  {
    forall i :: 0 <= i < |paths| ==> Reachable(roots, imports, includeDynamic, paths[i])
  }

  /** Every followed import of a visited module has been visited or is pending. */
  ghost predicate Covered(imports: Imports, includeDynamic: bool, visited: seq<string>, pending: seq<string>)
  {
    forall p, q :: p in visited && Imported(imports, includeDynamic, p, q) ==> q in visited || q in pending
  }

  /** The walk from the roots; None where the source throws over a missing module. */
  method Walk(roots: seq<string>, imports: Imports, includeDynamic: bool) returns (found: Option<seq<string>>)
    ensures found.None? <==> MissesModule(roots, imports, includeDynamic)
    ensures found.Some? ==> Distinct(found.value) && Elements(found.value) <= imports.Keys
    ensures found.Some? ==> forall p :: p in found.value <==> Reachable(roots, imports, includeDynamic, p)
  {
    var visited: seq<string> := [];
    var pending := roots;
    forall i | 0 <= i < |roots| ensures Reachable(roots, imports, includeDynamic, roots[i]) {
      RootIsReachable(roots, imports, includeDynamic, roots[i]);
    }
    while pending != []
      invariant Distinct(visited) && Elements(visited) <= imports.Keys
      invariant AllReachable(roots, imports, includeDynamic, visited)
      invariant AllReachable(roots, imports, includeDynamic, pending)
      invariant Covered(imports, includeDynamic, visited, pending)
      invariant forall r :: r in roots ==> r in visited || r in pending
      decreases imports.Keys - Elements(visited), |pending|
    {
      var path := pending[|pending| - 1];
      var rest := pending[..|pending| - 1];
      assert pending == rest + [path];
      if path in visited {
        pending := rest;
        continue;
      }
      if path !in imports {
        return None;
      }
      pending := PushImports(roots, imports, includeDynamic, path, rest);
      VisitKeepsCovered(imports, includeDynamic, visited, path, rest, pending);
      DistinctSnoc(visited, path);
      VisitsReachable(roots, imports, includeDynamic, visited, path);
      visited := visited + [path];
    }
    AllVisited(roots, imports, includeDynamic, visited);
    return Some(visited);
  }

  lemma VisitsReachable(roots: seq<string>, imports: Imports, includeDynamic: bool, visited: seq<string>, path: string)
    requires AllReachable(roots, imports, includeDynamic, visited) && Reachable(roots, imports, includeDynamic, path)
    ensures AllReachable(roots, imports, includeDynamic, visited + [path])
  {
  }

  lemma VisitKeepsCovered(imports: Imports, includeDynamic: bool, visited: seq<string>, path: string,
                          rest: seq<string>, pending: seq<string>)
    requires Covered(imports, includeDynamic, visited, rest + [path])
    requires rest <= pending && forall q :: Imported(imports, includeDynamic, path, q) ==> q in pending
    ensures Covered(imports, includeDynamic, visited + [path], pending)
  {
  }

  lemma AllVisited(roots: seq<string>, imports: Imports, includeDynamic: bool, visited: seq<string>)
    requires AllReachable(roots, imports, includeDynamic, visited)
    requires Covered(imports, includeDynamic, visited, [])
    requires forall r :: r in roots ==> r in visited
    requires Elements(visited) <= imports.Keys
    ensures forall p :: p in visited <==> Reachable(roots, imports, includeDynamic, p)
    ensures !MissesModule(roots, imports, includeDynamic)
  {
    forall p | Reachable(roots, imports, includeDynamic, p) ensures p in visited {
      var chain :| IsChain(roots, imports, includeDynamic, chain, p);
      ClosedHoldsChain(roots, imports, includeDynamic, Elements(visited), chain, p);
    }
  }

  /** The inner loop: the followed imports of one module go on top of the worklist. */
  method PushImports(roots: seq<string>, imports: Imports, includeDynamic: bool, path: string, rest: seq<string>)
    returns (pending: seq<string>)
    requires path in imports && Reachable(roots, imports, includeDynamic, path)
    requires AllReachable(roots, imports, includeDynamic, rest)
    ensures rest <= pending && AllReachable(roots, imports, includeDynamic, pending)
    ensures forall q :: Imported(imports, includeDynamic, path, q) ==> q in pending
  {
    var edges := imports[path];
    pending := rest;
    for i := 0 to |edges|
      invariant rest <= pending && AllReachable(roots, imports, includeDynamic, pending)
      invariant forall k :: 0 <= k < i && Follows(edges[k], includeDynamic) ==> edges[k].path in pending
    {
      if Follows(edges[i], includeDynamic) {
        ImportedIsReachable(roots, imports, includeDynamic, path, edges[i].path);
        pending := pending + [edges[i].path];
      }
    }
  }

  // ----- sizes -----

  datatype Size = Size(bytes: nat, gzip9Bytes: nat)

  datatype Totals = Totals(chunks: nat, bytes: nat, gzip9Bytes: nat)
  {
    function Plus(t: Totals): Totals
    {
      Totals(chunks + t.chunks, bytes + t.bytes, gzip9Bytes + t.gzip9Bytes)
    }

    function Add(s: Size): Totals
    {
      Totals(chunks + 1, bytes + s.bytes, gzip9Bytes + s.gzip9Bytes)
    }
  }

  const ZERO := Totals(0, 0, 0)

  /** The totals of a set of modules, whatever the order they are added in. */
  ghost function SetTotals(paths: set<string>, sizes: map<string, Size>): Totals
    requires paths <= sizes.Keys
  {
    if paths == {} then ZERO
    else
      var p :| p in paths;
      SetTotals(paths - {p}, sizes).Add(sizes[p])
  }

  lemma {:induction false} SetTotalsRemove(paths: set<string>, sizes: map<string, Size>, q: string)
    requires paths <= sizes.Keys && q in paths
    ensures SetTotals(paths, sizes) == SetTotals(paths - {q}, sizes).Add(sizes[q])
    decreases |paths|
  {
    var p :| p in paths && SetTotals(paths, sizes) == SetTotals(paths - {p}, sizes).Add(sizes[p]);
    if p == q {
      assert paths - {p} == paths - {q};
    } else {
      SetTotalsRemove(paths - {p}, sizes, q);
      SetTotalsRemove(paths - {q}, sizes, p);
      var rest := paths - {p} - {q};
      assert rest == paths - {q} - {p};
      assert SetTotals(paths, sizes) == SetTotals(rest, sizes).Add(sizes[q]).Add(sizes[p]);
      assert SetTotals(paths - {q}, sizes) == SetTotals(rest, sizes).Add(sizes[p]);
    }
  }

  /** Disjoint sets of modules add up. */
  lemma {:induction false} TotalsAddUp(a: set<string>, b: set<string>, sizes: map<string, Size>)
    requires a <= sizes.Keys && b <= sizes.Keys && a !! b
    ensures SetTotals(a + b, sizes) == SetTotals(a, sizes).Plus(SetTotals(b, sizes))
    decreases |a|, 1
  {
    if a == {} {
      assert a + b == b;
      assert SetTotals(a, sizes) == ZERO;
    } else {
      var p :| p in a;
      AddUpStep(a, b, sizes, p);
    }
  }

  lemma {:induction false} AddUpStep(a: set<string>, b: set<string>, sizes: map<string, Size>, p: string)
    requires a <= sizes.Keys && b <= sizes.Keys && a !! b && p in a
    ensures SetTotals(a + b, sizes) == SetTotals(a, sizes).Plus(SetTotals(b, sizes))
    decreases |a|, 0
  {
    var fewer := a - {p};
    assert p !in b && a + b - {p} == fewer + b;
    TotalsAddUp(fewer, b, sizes);
    SetTotalsRemove(a, sizes, p);
    SetTotalsRemove(a + b, sizes, p);
  }

  /** One module counts as one chunk of its own sizes. */
  lemma OneModuleCounts(p: string, sizes: map<string, Size>)
    requires p in sizes
    ensures var totals := SetTotals({p}, sizes);
            totals.chunks == 1 && totals.bytes == sizes[p].bytes && totals.gzip9Bytes == sizes[p].gzip9Bytes
    ensures SetTotals({}, sizes) == Totals(0, 0, 0)
  {
    SetTotalsRemove({p}, sizes, p);
    assert {p} - {p} == {};
  }

  method Sum(paths: seq<string>, sizes: map<string, Size>) returns (result: Totals)
    requires Distinct(paths) && Elements(paths) <= sizes.Keys
    ensures result == SetTotals(Elements(paths), sizes)
  {
    result := ZERO;
    for i := 0 to |paths|
      invariant Elements(paths[..i]) <= sizes.Keys
      invariant result == SetTotals(Elements(paths[..i]), sizes)
    {
      assert paths[..i + 1] == paths[..i] + [paths[i]];
      assert Elements(paths[..i + 1]) - {paths[i]} == Elements(paths[..i]);
      SetTotalsRemove(Elements(paths[..i + 1]), sizes, paths[i]);
      result := result.Add(sizes[paths[i]]);
    }
    assert paths[..|paths|] == paths;
  }

  // ----- the census -----

  const MAX_CHUNKS := 512
  const MAX_BYTES := 128 * 1024 * 1024

  datatype Census = Census(roots: nat, initial: Totals, deferred: Totals, other: Totals, all: Totals)

  datatype CensusError = OverBudget | NoEntry | MissingModule

  method Without(paths: seq<string>, excluded: seq<string>) returns (kept: seq<string>)
    requires Distinct(paths)
    ensures Distinct(kept) && Elements(kept) == Elements(paths) - Elements(excluded)
  {
    kept := [];
    for i := 0 to |paths|
      invariant Distinct(kept) && Elements(kept) == Elements(paths[..i]) - Elements(excluded)
    {
      assert paths[..i + 1] == paths[..i] + [paths[i]];
      assert paths[i] !in paths[..i];
      assert paths[i] !in Elements(kept);
      if paths[i] !in excluded {
        DistinctSnoc(kept, paths[i]);
        kept := kept + [paths[i]];
      }
    }
    assert paths[..|paths|] == paths;
  }

  ghost function ReachedModules(roots: seq<string>, imports: Imports, includeDynamic: bool): set<string>
  {
    set p | p in imports && Reachable(roots, imports, includeDynamic, p)
  }

  /** `files` lists the emitted modules in map order; their imports and sizes come with them. */
  method MeasureEmittedCheckoutStartupBundle(roots: seq<string>, files: seq<string>, imports: Imports,
                                             sizes: map<string, Size>)
    returns (result: Result<Census, CensusError>)
    requires Distinct(roots) && Distinct(files) && Elements(files) == imports.Keys == sizes.Keys
    ensures result == Failure(OverBudget) <==>
              |files| > 512 || SetTotals(sizes.Keys, sizes).bytes > 134_217_728
    ensures result == Failure(MissingModule) <==>
              && |files| <= 512 && SetTotals(sizes.Keys, sizes).bytes <= 134_217_728 && roots != []
              && MissesModule(roots, imports, true)
    ensures result == Failure(NoEntry) <==>
              |files| <= 512 && SetTotals(sizes.Keys, sizes).bytes <= 134_217_728 && roots == []
    ensures result.Success? ==>
              var census := result.value;
              && census.roots == |roots|
              && census.initial == SetTotals(ReachedModules(roots, imports, false), sizes)
              && census.deferred ==
                 SetTotals(ReachedModules(roots, imports, true) - ReachedModules(roots, imports, false), sizes)
              && census.other == SetTotals(imports.Keys - ReachedModules(roots, imports, true), sizes)
              && census.all == SetTotals(imports.Keys, sizes)
              && census.initial.Plus(census.deferred).Plus(census.other) == census.all
  {
    var all := Sum(files, sizes);
    if |files| > MAX_CHUNKS || all.bytes > MAX_BYTES {
      return Failure(OverBudget);
    }
    if roots == [] {
      return Failure(NoEntry);
    }
    var initial := Walk(roots, imports, false);
    var reachable := Walk(roots, imports, true);
    WalksAgree(roots, imports);
    if initial.None? || reachable.None? {
      return Failure(MissingModule);
    }
    assert Elements(initial.value) == ReachedModules(roots, imports, false);
    assert Elements(reachable.value) == ReachedModules(roots, imports, true);
    var initialTotals := Sum(initial.value, sizes);
    var deferred := Without(reachable.value, initial.value);
    var deferredTotals := Sum(deferred, sizes);
    var other := Without(files, reachable.value);
    var otherTotals := Sum(other, sizes);
    TotalsConserved(ReachedModules(roots, imports, false), ReachedModules(roots, imports, true), sizes);
    return Success(Census(|roots|, initialTotals, deferredTotals, otherTotals, all));
  }

  /** A set, what a larger set has beyond it, and everything else: their totals are the total of all. */
  lemma TotalsConserved(eager: set<string>, reached: set<string>, sizes: map<string, Size>)
    requires eager <= reached <= sizes.Keys
    ensures SetTotals(eager, sizes).Plus(SetTotals(reached - eager, sizes))
              .Plus(SetTotals(sizes.Keys - reached, sizes)) == SetTotals(sizes.Keys, sizes)
  {
    TotalsAddUp(eager, reached - eager, sizes);
    TotalsAddUp(reached, sizes.Keys - reached, sizes);
    assert eager + (reached - eager) == reached;
    assert reached + (sizes.Keys - reached) == sizes.Keys;
  }

  /** If the static walk meets a missing module so does the full one; static modules are reached. */
  lemma WalksAgree(roots: seq<string>, imports: Imports)
    ensures MissesModule(roots, imports, false) ==> MissesModule(roots, imports, true)
    ensures ReachedModules(roots, imports, false) <= ReachedModules(roots, imports, true)
  {
    forall p | Reachable(roots, imports, false, p) ensures Reachable(roots, imports, true, p) {
      StaticIsDynamic(roots, imports, p);
    }
  }
}
