/**
 * `StatefulCompilationPipeline`: a compilation that loads metadata, reads the source units
 * to compile, compiles them, and folds every unit's result into the metadata it stores.
 * Also the two generic source transforms the Java pipeline is built from.
 */
module CompilationPipeline {
  import Wrappers

  /** The result of compiling one unit. */
  datatype CompilationResult = Success | Failed(errors: seq<string>)

  /** `CompilationMetadataStore`: loads the stored metadata or the empty one, and stores new metadata. */
  class MetadataStore<Metadata> {
    var stored: Wrappers.Option<Metadata>
    const empty: Metadata

    constructor (stored: Wrappers.Option<Metadata>, empty: Metadata)
      ensures this.stored == stored && this.empty == empty
    {
      this.stored := stored;
      this.empty := empty;
    }

    /** `loadOrDefault`: the stored metadata, or the empty metadata when nothing is stored. */
    function LoadOrDefault(): (m: Metadata)
      reads this
      ensures stored.Some? ==> m == stored.value
      ensures stored.None? ==> m == empty
    {
      if stored.Some? then stored.value else empty
    }

    /** `store`. */
    method Store(metadata: Metadata)
      modifies this
      ensures stored == Wrappers.Some(metadata)
    {
      stored := Wrappers.Some(metadata);
    }
  }

  // ---------------------------------------------------------------- the metadata fold

  /** The metadata after `update` has seen each result in turn, starting from `start`. */
  function FoldResults<Context, Unit, Metadata>(update: (Context, Metadata, Unit, CompilationResult) -> Metadata, ctx: Context,
                                                start: Metadata, results: seq<(Unit, CompilationResult)>): Metadata
    decreases |results|
  {
    if results == [] then start
    else
      var last := results[|results| - 1];
      update(ctx, FoldResults(update, ctx, start, results[..|results| - 1]), last.0, last.1)
  }

  /** Folding two runs of results one after the other is folding their concatenation. */
  lemma {:induction false} FoldResultsAppend<Context, Unit, Metadata>(update: (Context, Metadata, Unit, CompilationResult) -> Metadata,
                                                                      ctx: Context, start: Metadata,
                                                                      xs: seq<(Unit, CompilationResult)>, ys: seq<(Unit, CompilationResult)>)
    ensures FoldResults(update, ctx, start, xs + ys) == FoldResults(update, ctx, FoldResults(update, ctx, start, xs), ys)
    decreases |ys|
  {
    if ys != [] {
      var init := ys[..|ys| - 1];
      FoldResultsAppend(update, ctx, start, xs, init);
      assert (xs + ys)[..|xs + ys| - 1] == xs + init;
    } else {
      assert xs + ys == xs;
    }
  }

  /** A property every update keeps holds of the folded metadata. */
  lemma {:induction false} FoldResultsKeeps<Context, Unit, Metadata>(update: (Context, Metadata, Unit, CompilationResult) -> Metadata,
                                                                     ctx: Context, start: Metadata, results: seq<(Unit, CompilationResult)>,
                                                                     inv: Metadata -> bool)
    requires inv(start)
    requires forall m, u, r :: inv(m) ==> inv(update(ctx, m, u, r))
    ensures inv(FoldResults(update, ctx, start, results))
    decreases |results|
  {
    if results != [] {
      FoldResultsKeeps(update, ctx, start, results[..|results| - 1], inv);
    }
  }

  /** The results that are not failures, in order. */
  function Successes<Unit>(results: seq<(Unit, CompilationResult)>): seq<(Unit, CompilationResult)>
    decreases |results|
  {
    if results == [] then []
    else
      var init := Successes(results[..|results| - 1]);
      if results[|results| - 1].1.Failed? then init else init + [results[|results| - 1]]
  }

  /** When an update ignores failed units, only the successful ones shape the folded metadata. */
  lemma {:induction false} FoldIgnoresFailures<Context, Unit, Metadata>(update: (Context, Metadata, Unit, CompilationResult) -> Metadata,
                                                                        ctx: Context, start: Metadata, results: seq<(Unit, CompilationResult)>)
    requires forall m, u, e :: update(ctx, m, u, Failed(e)) == m
    ensures FoldResults(update, ctx, start, results) == FoldResults(update, ctx, start, Successes(results))
    decreases |results|
  {
    if results != [] {
      var init := results[..|results| - 1];
      var last := results[|results| - 1];
      FoldIgnoresFailures(update, ctx, start, init);
      if last.1.Failed? {
        assert update(ctx, FoldResults(update, ctx, start, init), last.0, Failed(last.1.errors)) == FoldResults(update, ctx, start, init);
      } else {
        var s := Successes(init) + [last];
        assert s[..|s| - 1] == Successes(init);
      }
    }
  }

  // ---------------------------------------------------------------- the pipeline

  class StatefulCompilationPipeline<Context, Unit, Metadata> {
    const metadataStore: MetadataStore<Metadata>
    const sourceReader: (Context, Metadata) -> seq<Unit>
    /** The compiler; a failure stands for an exception it throws. */
    const compile: (Context, seq<Unit>, Metadata) -> Wrappers.Result<seq<(Unit, CompilationResult)>>
    const updateMetadata: (Context, Metadata, Unit, CompilationResult) -> Metadata
    const updateMetadataOnStart: (Context, Metadata) -> Metadata
    const updateMetadataOnFinish: (Context, Metadata) -> Metadata

    /** The two optional mutators default to leaving the metadata as it is. */
    constructor (metadataStore: MetadataStore<Metadata>, sourceReader: (Context, Metadata) -> seq<Unit>,
                 compile: (Context, seq<Unit>, Metadata) -> Wrappers.Result<seq<(Unit, CompilationResult)>>,
                 updateMetadata: (Context, Metadata, Unit, CompilationResult) -> Metadata,
                 onStart: Wrappers.Option<(Context, Metadata) -> Metadata>, onFinish: Wrappers.Option<(Context, Metadata) -> Metadata>)
      ensures this.metadataStore == metadataStore && this.sourceReader == sourceReader
      ensures this.compile == compile && this.updateMetadata == updateMetadata
      ensures forall c, m :: updateMetadataOnStart(c, m) == if onStart.Some? then onStart.value(c, m) else m
      ensures forall c, m :: updateMetadataOnFinish(c, m) == if onFinish.Some? then onFinish.value(c, m) else m
    {
      this.metadataStore := metadataStore;
      this.sourceReader := sourceReader;
      this.compile := compile;
      this.updateMetadata := updateMetadata;
      var identity: (Context, Metadata) -> Metadata := (c, m) => m;
      var start: (Context, Metadata) -> Metadata := if onStart.Some? then onStart.value else identity;
      var finish: (Context, Metadata) -> Metadata := if onFinish.Some? then onFinish.value else identity;
      this.updateMetadataOnStart := start;
      this.updateMetadataOnFinish := finish;
    }

    /**
     * `compile`: the reader and the compiler see the loaded metadata; the compiler's results
     * are passed on unchanged and in order, and the stored metadata is the finishing step
     * applied to the fold of the updates over the results, starting from the starting step.
     */
    method Compile(ctx: Context) returns (r: Wrappers.Result<seq<(Unit, CompilationResult)>>)
      modifies metadataStore
      ensures var loaded := old(metadataStore.LoadOrDefault());
        r == compile(ctx, sourceReader(ctx, loaded), loaded)
      ensures var loaded := old(metadataStore.LoadOrDefault());
        r.Success? ==>
          metadataStore.stored ==
          Wrappers.Some(updateMetadataOnFinish(ctx, FoldResults(updateMetadata, ctx, updateMetadataOnStart(ctx, loaded), r.value)))
      ensures r.Failure? ==> metadataStore.stored == old(metadataStore.stored)
    {
      var metadata := metadataStore.LoadOrDefault();
      var sources := sourceReader(ctx, metadata);
      var compilationResults := compile(ctx, sources, metadata);
      if compilationResults.Failure? {
        return compilationResults;
      }
      var all := compilationResults.value;
      var newMetadata := updateMetadataOnStart(ctx, metadata);
      var yielded: seq<(Unit, CompilationResult)> := [];
      for i := 0 to |all|
        invariant yielded == all[..i]
        invariant newMetadata == FoldResults(updateMetadata, ctx, updateMetadataOnStart(ctx, metadata), yielded)
      {
        var result := all[i];
        newMetadata := updateMetadata(ctx, newMetadata, result.0, result.1);
        yielded := yielded + [result];
        assert yielded[..|yielded| - 1] == all[..i];
      }
      assert all[..|all|] == all;
      newMetadata := updateMetadataOnFinish(ctx, newMetadata);
      metadataStore.Store(newMetadata);
      return Wrappers.Success(yielded);
    }
  }

  // ---------------------------------------------------------------- the source transforms

  /** A unit is compiled when its target's time is unknown or older than its source's. */
  predicate NeedsCompile<Unit>(u: Unit, sourceLastModified: Unit -> int, targetLastModified: Unit -> Wrappers.Option<int>) {
    targetLastModified(u).None? || targetLastModified(u).value < sourceLastModified(u)
  }

  /** `filterLastModified`. */
  function FilterLastModified<Unit>(units: seq<Unit>, sourceLastModified: Unit -> int,
                                    targetLastModified: Unit -> Wrappers.Option<int>): seq<Unit>
    decreases |units|
  {
    if units == [] then []
    else
      (if NeedsCompile(units[0], sourceLastModified, targetLastModified) then [units[0]] else []) +
      FilterLastModified(units[1..], sourceLastModified, targetLastModified)
  }

  /** The filter keeps exactly the units that need compiling, and never more units than it was given. */
  lemma {:induction false} FilterLastModifiedKeepsStale<Unit>(units: seq<Unit>, sourceLastModified: Unit -> int,
                                                             targetLastModified: Unit -> Wrappers.Option<int>)
    ensures forall u :: u in FilterLastModified(units, sourceLastModified, targetLastModified) <==>
      u in units && NeedsCompile(u, sourceLastModified, targetLastModified)
    ensures |FilterLastModified(units, sourceLastModified, targetLastModified)| <= |units|
    decreases |units|
  {
    if units != [] {
      FilterLastModifiedKeepsStale(units[1..], sourceLastModified, targetLastModified);
      assert units == [units[0]] + units[1..];
    }
  }

  /** The filter works unit by unit, so it keeps the order of the units. */
  lemma {:induction false} FilterLastModifiedAppend<Unit>(xs: seq<Unit>, ys: seq<Unit>, sourceLastModified: Unit -> int,
                                                         targetLastModified: Unit -> Wrappers.Option<int>)
    ensures FilterLastModified(xs + ys, sourceLastModified, targetLastModified) ==
      FilterLastModified(xs, sourceLastModified, targetLastModified) + FilterLastModified(ys, sourceLastModified, targetLastModified)
    decreases |xs|
  {
    if xs != [] {
      FilterLastModifiedAppend(xs[1..], ys, sourceLastModified, targetLastModified);
      assert (xs + ys)[1..] == xs[1..] + ys;
    } else {
      assert xs + ys == ys;
    }
  }

  /** `includeDependentSources`: every unit, immediately followed by its dependants. */
  function IncludeDependentSources<Unit>(units: seq<Unit>, dependants: Unit -> seq<Unit>): seq<Unit>
    decreases |units|
  {
    if units == [] then [] else [units[0]] + dependants(units[0]) + IncludeDependentSources(units[1..], dependants)
  }

  /** The expansion works unit by unit: a unit's block is the unit followed by its dependants. */
  lemma {:induction false} IncludeDependentSourcesAppend<Unit>(xs: seq<Unit>, ys: seq<Unit>, dependants: Unit -> seq<Unit>)
    ensures IncludeDependentSources(xs + ys, dependants) == IncludeDependentSources(xs, dependants) + IncludeDependentSources(ys, dependants)
    decreases |xs|
  {
    if xs != [] {
      IncludeDependentSourcesAppend(xs[1..], ys, dependants);
      assert (xs + ys)[1..] == xs[1..] + ys;
    } else {
      assert xs + ys == ys;
    }
  }

  /** The expansion holds the units and their dependants and nothing else. */
  lemma {:induction false} IncludeDependentSourcesMembership<Unit>(units: seq<Unit>, dependants: Unit -> seq<Unit>, x: Unit)
    ensures x in IncludeDependentSources(units, dependants) <==> x in units || exists u :: u in units && x in dependants(u)
    ensures |IncludeDependentSources(units, dependants)| >= |units|
    decreases |units|
  {
    if units != [] {
      IncludeDependentSourcesMembership(units[1..], dependants, x);
      assert units == [units[0]] + units[1..];
      if exists u :: u in units && x in dependants(u) {
        var u :| u in units && x in dependants(u);
        if u != units[0] {
          assert u in units[1..];
        }
      }
    }
  }
}
